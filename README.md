# Bank ledger core

A model of the ledger engine of a small Django bank. It has three parts:

- **The data.** Account types form a catalog. Each type has a category (checking, savings, money market or certificate of deposit), a minimum deposit, a minimum balance, a maintenance fee, an overdraft fee, a yield and a maturity period. Each account has an owner, a type, a balance and, for a certificate of deposit, a maturity date. The ledger is a list of transactions. Each transaction has a description, a date, an optional source account, an optional destination account and an amount.
- **The operations.** The operations are:
  - a transfer of funds between two accounts;
  - opening an account, with an optional first deposit taken from another account;
  - paying a month's interest to an account;
  - charging a month's maintenance fee to an account.
- **The sweeps.** Two monthly sweeps apply the interest posting or the fee posting to every account. Each sweep retries an account's posting while the database reports contention.

Money is held as integer cents, because the money columns keep exactly two fractional digits. Dates are day numbers. Keys are natural numbers.

Each ledger operation appears twice. First, it is a pure function from the accounts to an `Outcome` or `Effect`: the reply, the new accounts and the rows appended. The lemmas reason about these functions. Second, it is a method of the `Ledger.Bank` class, which holds the account map, the catalog, the ledger and the next key, and updates them in place. Each method is proved to do exactly what its function says. Each method also keeps the store's invariant (`Ledger.Consistent`), over opening balances that each method states it leaves alone, or extends by the new account's initial balance:

- every account's type is in the catalog;
- type names are unique;
- every certificate of deposit has a maturity date;
- every ledger row names only existing accounts;
- every balance equals the account's opening balance plus the net of the ledger rows that name it.

Two behaviours of the code are modelled as written:

- **A failed initial deposit keeps the overdraft fee.** The deposit transfer runs inside the block that creates the account, where its own overdraft block is only a savepoint. The fee charge and the fee row stay in the outer block, and the transfer does not raise, so the outer block commits them. So when the deposit fails, the new account is deleted, but the source keeps the fee charge and the fee row. (`Ledger.FailedDepositKeepsOverdraftFee`, bank/utils.py:78-100 with 29-39.) So opening is not rolled back as a whole.
- **Interest is skipped only when the product is exactly zero.** The code tests the unrounded product of balance and rate; it does not test whether the interest rounds to zero. Interest below half a cent therefore writes a row of amount 0.00. (`Ledger.InterestSkippedOnlyWhenZero`, `Ledger.SubCentInterestWritesZeroRow`.)

The files are:

- `models.dfy` (module `Models`): the records, the category codes, the money-column limit and the ten-digit zero-padded numbers under which accounts and transactions are shown.
- `ledger.dfy` (module `Ledger`): the transfer, opening and posting functions and their lemmas, the invariant, and the `Bank` class.
- `tasks.dfy` (module `Tasks`): the two sweeps with their retry loops, and the two retry findings below.

## Model

| member | source | states |
|---|---|---|
| Models.CategoryCode | bank/models.py:10-18 | a category is stored as one of the codes 0 to 3 |
| Models.CategoryFromCode | bank/models.py:10-18 | exactly the codes 0 to 3 are valid choices, and each maps back to its own code |
| Models.CategoryCodeRoundTrip | bank/models.py:10-18 | reading back a category's stored code gives the category |
| Models.MoneyFitsColumn | bank/models.py:19-22 | an amount fits a money column exactly when its cents need at most 28 digits, that is, when its absolute value is below 10^26 units |
| Models.NewAccountType | bank/models.py:17-24 | a type declared with only its required fields has yield 0 and a maturity period of 0 days, and keeps every field it was given |
| Models.NewAccount | bank/models.py:31-35 | a new account has balance 0, no maturity date, and the given owner and type |
| Models.DecimalString | bank/models.py:39 | `str(id)` is a non-empty string of digits with no leading zero |
| Models.ZeroFill | bank/models.py:39 | on a string of unsigned digits, `zfill` pads on the left with zeros up to the width, ends with the original string, and leaves a longer string as it is |
| Models.PaddedNumber | bank/models.py:37-39 | a shown number is all digits and at least 10 characters long, and exactly 10 when the key is below 10^10 |
| Models.PaddedNumberParses | bank/models.py:37-39 | a shown number reads back as its key |
| Models.ParseZeroFilled | bank/models.py:39 | padding with zeros does not change the value the digits stand for |
| Models.PaddedNumberInjective | bank/models.py:49-51 | two keys shown as the same number are the same key |
| Models.ParseDecimalRoundTrip | bank/models.py:39 | the decimal digits of a key read back as the key |
| Models.DigitsBelowPower | bank/models.py:39 | a key has at most k digits exactly when it is below 10^k |
| Models.MemoText | bank/utils.py:33 | a description starts with the overdraft prefix exactly when it is an overdraft fee's, and then carries the shown number of the attempted deposit's account before the closing parenthesis |
| Models.MemoTextInjective | bank/utils.py:32-38 | different kinds of row get different descriptions, and an overdraft fee's description identifies the account the attempted deposit was to |
| Ledger.Cascade | bank/models.py:45-46 | deleting an account drops the rows that name it and keeps exactly the rows that do not; when no row names it, the ledger is unchanged |
| Ledger.CascadeAppend | bank/models.py:45-46 | the rows kept keep their order: deleting from a ledger is deleting from each of its parts |
| Ledger.CascadeOne | bank/models.py:45-46 | a single row is kept exactly when it does not name the account |
| Ledger.AccountedChain | bank/utils.py:29-39 | two steps, each changing balances only through its own rows, together change balances only through all their rows |
| Ledger.AccountedKeepsWellFormed | bank/utils.py:29-39 | a step that changes balances only through rows keeps every account's type and maturity date |
| Ledger.MessageText | bank/utils.py:19-49 | the reply text is "Success" exactly for a successful reply |
| Ledger.MessageTextInjective | bank/utils.py:19-49 | different replies have different texts |
| Ledger.OverdraftCharge | bank/utils.py:29-39 | the source's balance drops by its type's overdraft fee, and one row for that fee runs from the source to outside the bank |
| Ledger.FundsMove | bank/utils.py:52-64 | between two different accounts, the source drops and the destination rises by the amount, with one row from source to destination for the amount |
| Ledger.Transfer | bank/utils.py:12-66 | the reply is Success exactly when the transfer succeeded; a success needs a positive amount and two different accounts; every failure other than a shortfall has no effect |
| Ledger.TransferAccounted | bank/utils.py:27-64 | every balance moves by exactly the net of the transfer's rows; the rows name only the two accounts; a failed transfer writes no row naming the destination |
| Ledger.TransferRefers | bank/utils.py:32-38 | the transfer's rows name only the two accounts, and a failed transfer's rows never name the destination |
| Ledger.DebitAccounted | bank/utils.py:29-39 | one row from an account to outside the bank lowers that account by its amount and changes nothing else |
| Ledger.MoveAccounted | bank/utils.py:52-64 | one row between two different accounts moves its amount from one to the other and changes nothing else |
| Ledger.TransferDecision | bank/utils.py:18-49 | each reply comes exactly from the first failing check, in the order of bank/utils.py: amount, same account, funds, minimum balance, maturity |
| Ledger.OverdraftCharged | bank/utils.py:27-41 | a shortfall replies Insufficient Funds; it debits exactly the overdraft fee from the source, with one fee row whose description names the destination even when the fee is 0; no other account changes, whatever the later checks would say |
| Ledger.WholeBalanceReachesMinimumCheck | bank/utils.py:27-45 | transferring the whole balance is not a shortfall; it fails the minimum-balance check exactly when the minimum is positive |
| Ledger.TransferConserves | bank/utils.py:51-66 | a success appends one funds-transfer row, lowers the source by the amount and raises the destination by it, keeps their total, and changes no other account |
| Ledger.InitialAccount | bank/utils.py:78-91 | a new certificate of deposit matures the type's period after today; a new savings account starts at 50.00; other types start at 0 with no maturity date |
| Ledger.DefaultCertificateMaturesAtOpening | bank/models.py:23-24 | a certificate of deposit type declared without a maturity period opens an empty account that matures on the opening day |
| Ledger.Open | bank/utils.py:69-102 | a deposit below the minimum replies Initial Deposit Too Small and changes nothing; otherwise a key is used; a zero deposit that passes the minimum replies Success, keeps the new account with its initial record and writes no row, for every type; the reply is Success exactly when the opening succeeded |
| Ledger.CreatedWellFormed | bank/utils.py:80-91 | inserting the new account keeps every type in the catalog and every certificate of deposit dated |
| Ledger.OpenAccounted | bank/utils.py:78-100 | a successful opening adds exactly the new account, holding its initial record plus what its rows moved in; a failed one keeps the same accounts; every balance moves only through the rows |
| Ledger.OpenWellFormed | bank/utils.py:78-100 | after opening, the store stays well formed and the new rows name only accounts that still exist |
| Ledger.OpenRepliesAsDeposit | bank/utils.py:93-100 | with a non-zero deposit that passes the minimum, opening replies exactly what the deposit transfer replied; a success keeps the new account credited with the deposit, debits the source by it and writes the one funds-transfer row; a refusal other than a shortfall leaves the accounts and the ledger as they were |
| Ledger.FailedDepositKeepsOverdraftFee | bank/utils.py:78-100 | a deposit the source cannot cover replies Insufficient Funds and deletes the new account, but the source stays debited by the overdraft fee, with its row |
| Ledger.OpenFromNewAccount | bank/utils.py:93-100 | a deposit taken from the new account itself replies "Source and Destination Accounts Must Not be the Same" (the non-positive-amount reply for a negative deposit), deletes the new account, leaves the accounts and the ledger as they were, and still uses up the key |
| Ledger.SavingsOpensWithPromotion | bank/utils.py:88-91 | a savings account opened without a deposit holds 50.00 and writes no row |
| Ledger.CertificateLockedUntilMaturity | bank/utils.py:47-49 | a newly opened certificate of deposit refuses a transfer before its maturity date with Account Maturity Not Reached, even when its balance would allow it |
| Ledger.RoundHalfEven | bank/utils.py:112-122 | interest is stored to the nearest cent, with ties going to the even cent, and whole cents are kept as they are |
| Ledger.MonthlyInterest | bank/utils.py:107 | the unrounded interest is zero exactly when the balance or the monthly rate is zero |
| Ledger.InterestPosting | bank/utils.py:105-122 | no row exactly when the unrounded interest is zero; otherwise one Interest Paid row from outside the bank into the account, for the rounded interest |
| Ledger.InterestAccounted | bank/utils.py:112-122 | paying interest moves the balance by exactly its row, and the row names only that account |
| Ledger.InterestSkippedOnlyWhenZero | bank/utils.py:107-110 | interest is skipped exactly when the balance or the monthly rate is zero |
| Ledger.SubCentInterestWritesZeroRow | bank/utils.py:109-122 | non-zero interest under half a cent still writes an Interest Paid row of amount 0 and leaves the balance as it was |
| Ledger.InterestOnThousandAtTwelvePercent | bank/utils.py:105-122 | 1000.00 at a monthly rate of 0.01 earns one row of 10.00, and the balance becomes 1010.00 |
| Ledger.MaintenancePosting | bank/utils.py:125-140 | the balance drops by the fee, with no lower bound; no row exactly when the fee is zero; otherwise one Maintenance Fee row from the account to outside the bank |
| Ledger.MaintenanceAccounted | bank/utils.py:130-140 | charging the fee moves the balance by exactly its row, and the row names only that account |
| Ledger.PostingKeepsBalances | bank/utils.py:52-64 | appending rows that account for a step keeps every balance equal to its opening balance plus the ledger's net |
| Ledger.CommitKeepsConsistent | bank/utils.py:52-64 | committing a step that changes balances only through its rows, whose rows name only existing accounts, keeps the store consistent |
| Ledger.CreateKeepsConsistent | bank/utils.py:80-91 | inserting an account under the next key keeps the store consistent |
| Ledger.DeleteKeepsConsistent | bank/utils.py:97-98 | deleting an account that no row names keeps the store consistent |
| Ledger.Bank.constructor | bank/models.py:17 | an empty store over a catalog with unique names is consistent, has no opening balances and starts at key 1 |
| Ledger.Bank.Commit | bank/utils.py:52-64 | a step's accounts and rows are written together, the opening balances are untouched, and the store stays consistent |
| Ledger.Bank.TransferFunds | bank/utils.py:12-66 | the reply, the new accounts and the appended rows are those of `Ledger.Transfer`; the store stays consistent |
| Ledger.Bank.ChargeOverdraft | bank/utils.py:29-39 | the source is debited by its overdraft fee and the fee row is appended, together |
| Ledger.Bank.MoveFunds | bank/utils.py:52-64 | source debit, destination credit and the transfer row are written together |
| Ledger.Bank.OpenAccount | bank/utils.py:69-102 | the reply, the next key, the accounts and the appended rows are those of `Ledger.Open`; once the deposit passes the minimum, the new key's initial balance is recorded as its opening balance; the store stays consistent |
| Ledger.Bank.CreateAccount | bank/utils.py:80-91 | the account is inserted under the next key with its balance as opening balance, the key counter advances, and the ledger is untouched |
| Ledger.Bank.DeleteAccount | bank/utils.py:97-98 | the account is removed along with the rows that name it, of which there are none |
| Ledger.Bank.PayMonthlyInterest | bank/utils.py:105-122 | the accounts and the appended rows are those of `Ledger.InterestPosting`; the store stays consistent |
| Ledger.Bank.ChargeMonthlyMaintenance | bank/utils.py:125-140 | the accounts and the appended rows are those of `Ledger.MaintenancePosting`; the store stays consistent |
| Tasks.Posting | bank/tasks.py:14 | a sweep's posting to one account keeps the set of accounts |
| Tasks.PostingAccounted | bank/tasks.py:14 | the posting moves the account only through its rows, which name only that account |
| Tasks.PostingIsLocal | bank/tasks.py:11-14 | the posting depends only on the account it posts to |
| Tasks.PostingLeavesOthers | bank/tasks.py:11-14 | the posting leaves every other account as it was |
| Tasks.SweepEffect | bank/tasks.py:11-18 | a sweep keeps the set of accounts and keeps the store well formed |
| Tasks.SweepAccounted | bank/tasks.py:11-18 | a sweep moves every balance by exactly what its rows move into it, and its rows name only accounts of the store |
| Tasks.SweepPostsOnce | bank/tasks.py:11-18 | over distinct accounts, every listed account ends as its own single posting applied to its record before the sweep, and unlisted accounts are untouched |
| Tasks.SweepRowsInOrder | bank/tasks.py:11-14 | the ledger gets each listed account's rows, in the listed order, each computed from the record before the sweep |
| Tasks.SweepStep | bank/tasks.py:11-15 | a sweep over one more account is the shorter sweep followed by the posting to that account |
| Tasks.FirstFatalIsFirst | bank/tasks.py:12-18 | a sweep stops at the first account whose attempt raises an error other than contention, and completes exactly when there is none |
| Tasks.StaleAfterFailures | bank/utils.py:130-132 | the held account object after failed attempts differs from the one held before only in its balance |
| Tasks.StaleBalance | bank/utils.py:130-132 | each failed attempt leaves the held account object one fee lower |
| Tasks.RetriedMaintenanceAsWritten | bank/tasks.py:23-30 | as written, the retried fee posting changes only the balance of the held object and writes a row exactly when the fee is not zero |
| Tasks.RetriedMaintenanceAsWrittenWithoutContention | bank/tasks.py:23-30 | without a contended attempt the fee sweep as written charges exactly what `Ledger.MaintenancePosting` charges |
| Tasks.RetriedMaintenanceAsWrittenOvercharges | bank/tasks.py:23-30 | as written, a fee posting after a contended attempt takes the fee once per attempt but records it once, so the stored balance leaves the ledger behind |
| Tasks.StaleInterestBalance | bank/utils.py:107-114 | each failed attempt leaves the held account object credited with its interest; an empty held balance stays empty |
| Tasks.InterestWrite | bank/utils.py:105-122 | one attempt of the interest posting writes at most one row, an Interest Paid row from outside the bank into the account |
| Tasks.RetriedInterestAsWritten | bank/tasks.py:11-18 | as written, the retried interest posting writes at most one row, an Interest Paid row into the account, computed from the held object |
| Tasks.RetriedInterestAsWrittenWithoutContention | bank/tasks.py:11-18 | without a contended attempt the interest sweep as written writes exactly the rows of `Ledger.InterestPosting`, and its stored balance is within a cent of the model's |
| Tasks.FreshInterestWrite | bank/utils.py:107-122 | an attempt from the stored balance writes nothing when the interest is zero, and otherwise one row for the rounded interest, storing within a cent of the balance plus that row |
| Tasks.RoundingPoints | bank/utils.py:113-122 | rounding balance plus interest and rounding the interest alone differ by at most one cent |
| Tasks.RetriedInterestAsWrittenOvercredits | bank/tasks.py:11-18 | as written, 1000.00 at a monthly rate of 0.01 with one contended attempt stores 1020.10 against a single row of 10.10, so the stored balance leaves the ledger behind |
| Tasks.PostWithRetry | bank/tasks.py:12-18 | contended attempts change nothing; an uncaught error leaves the store as it was and is reported; otherwise exactly one posting is applied |
| Tasks.PostNext | bank/tasks.py:11-18 | posting to the next listed account extends the sweep by that account, or stops with the store unchanged |
| Tasks.RunSweep | bank/tasks.py:11-18 | the sweep ends where the first uncaught error is; the store holds exactly the postings to the accounts before that point, in order; the store stays consistent |
| Tasks.PayMonthlyInterest | bank/tasks.py:9-18 | the interest sweep over every account, with the ending and the effect of `Tasks.RunSweep` |
| Tasks.ChargeMonthlyFees | bank/tasks.py:21-30 | the fee sweep over every account, with the ending and the effect of `Tasks.RunSweep` |

## Left out

- The HTTP views, forms, routes, admin screens and the React front end are left out. They are presentation, and the views' open-account pre-checks repeat the checks modelled here.
- The SQLite write-ahead-log switch (bank/utils.py:143-150) is left out. It is database configuration.
- The interest rate is a parameter. The code derives the monthly rate from the yield in binary floating point, `Decimal((apy / 12) / 100)` (bank/utils.py:107). The model takes the rate as a function `monthlyRate` of the yield and computes in exact rationals.
- Ledger.InterestPosting: the balance is credited with the rounded interest of the row. The store instead rounds balance plus interest. The two can differ by one cent when the interest falls exactly halfway between cents and the balance has an odd number of cents.
- The 28-digit limit of the money columns is defined (`Models.IsMoney`, `Models.MoneyFitsColumn`), but the operations do not check it. An amount past the limit would make the store reject the write; the model does not include that error.
- Database transactions are modelled but not concurrency. The overdraft-fee, funds-transfer, interest and maintenance blocks (bank/utils.py:29, 52, 112, 130) are each one step that commits its accounts and rows together. When an account is opened, the first two are savepoints inside the outer block of bank/utils.py:78-100. That outer block is modelled as a sequence of steps: `Ledger.Bank.CreateAccount`, then the commits inside `Ledger.Bank.TransferFunds`, then `Ledger.Bank.DeleteAccount` when the deposit fails. No step of that sequence can fail in the model, so the sequence has the effect of the whole block. Locking, isolation between concurrent requests and SQLite contention are not modelled.
- `date.today()` is the parameter `today`. The clock is outside the model.
- Lookups that raise `DoesNotExist` are not modelled. They become preconditions that the accounts and the type exist. A non-zero deposit that passes the minimum must name a source that exists once the new account is inserted: an existing account, or the new account itself (`Ledger.DepositSourceGiven`).
- Contention (`OperationalError`) and other errors raised by an attempt are not computed. They come from a script of `Tasks.Attempts`, one per listed account.
- Tasks.PostWithRetry: the script allows only finitely many contended attempts per account. Under endless contention the `while True` loop of bank/tasks.py:12-18 and 24-30 never ends; that run is outside the model.
- A row's stored description is the `Models.Memo` it was written for. `Models.MemoText` gives the stored text; what is proved about it is that it tells the memos apart and that an overdraft text carries the shown account number.
- The order of `Account.objects.all()` is a parameter of the sweeps. It lists every account exactly once.
- A certificate of deposit always has a maturity date, because that is part of the store's invariant. The comparison at bank/utils.py:48 would fail on a missing date; that path cannot arise through the operations modelled.
- Editing the catalog and managing users are left out. Users are opaque owner keys.
- `AccountType.__str__` (bank/models.py:26-28) only returns the name, and the 64- and 256-character limits of the text columns are not modelled.

## Findings

| source | as written | input that shows it | evidently intended | confidence | as-written member | corrected member |
|---|---|---|---|---|---|---|
| bank/tasks.py:23-30 | the fee sweep keeps one account object across retries, and the fee posting lowers that object's balance before saving it (bank/utils.py:131-132); when the save meets contention, the store rolls back but the object keeps the lower balance, so the next attempt lowers it again | balance 100.00, fee 5.00, one contended attempt and then a successful one: the stored balance is 90.00, but the single fee row accounts for only 5.00 | each retried attempt starts from the stored account, so the fee is taken once and the balance matches the ledger | not executed | Tasks.RetriedMaintenanceAsWrittenOvercharges | Tasks.PostWithRetry |
| bank/tasks.py:11-18 | the interest sweep keeps one account object across retries, and the interest posting raises that object's balance before saving it (bank/utils.py:113-114); when the save meets contention, the store rolls back but the object keeps the raised balance, so the next attempt computes interest on it and credits again | balance 1000.00, monthly rate 0.01, one contended attempt and then a successful one: the stored balance is 1020.10, but the single Interest Paid row accounts for only 10.10 | each retried attempt starts from the stored account, so interest is credited once and the balance matches the ledger | not executed | Tasks.RetriedInterestAsWrittenOvercredits | Tasks.PostWithRetry |

The model applies the corrected behaviour to both sweeps. `Ledger.MaintenanceAccounted` and `Ledger.InterestAccounted` give the accounting that the corrected retry keeps.
