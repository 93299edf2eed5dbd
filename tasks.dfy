/** The scheduled monthly sweeps: pay interest on, or charge the maintenance
    fee to, every account in the order the store lists them, retrying an
    account's posting for as long as the store reports contention.

    Whether an attempt meets contention is not something the model can
    compute; it is given as a script, one `Attempts` per listed account. */
module Tasks {
  import opened Models
  import opened Ledger

  /** Which monthly posting a sweep applies. */
  datatype Sweep = Interest(monthlyRate: real -> real) | Maintenance

  /** For one account: how many attempts meet contention (and are rolled
      back) before the attempt that decides, and whether that attempt fails
      with an error other than contention. */
  datatype Attempts = Attempts(contended: nat, fatal: bool)

  /** How a sweep ended: every account done, or stopped by an uncaught
      error while posting to the account at position `at`. */
  datatype SweepEnd = Completed | Raised(at: nat)

  /** One account's posting. */
  function Posting(kind: Sweep, accounts: map<nat, Account>, types: map<nat, AccountType>,
                   id: nat, today: int): (e: Effect)
    requires id in accounts && accounts[id].typeId in types
    ensures e.accounts.Keys == accounts.Keys
  {
    match kind
    case Interest(rate) => InterestPosting(accounts, types, id, rate, today)
    case Maintenance => MaintenancePosting(accounts, types, id, today)
  }

  /** A posting changes the account only through its rows, and the rows
      name only that account. */
  lemma PostingAccounted(kind: Sweep, accounts: map<nat, Account>, types: map<nat, AccountType>,
                         id: nat, today: int)
    requires id in accounts && accounts[id].typeId in types
    ensures var e := Posting(kind, accounts, types, id, today);
            Accounted(accounts, e.accounts, e.rows) && RefersWithin(e.rows, {id})
  {
    match kind
    case Interest(rate) => InterestAccounted(accounts, types, id, rate, today);
    case Maintenance => MaintenanceAccounted(accounts, types, id, today);
  }

  /** A posting reads only the account it posts to. */
  lemma PostingIsLocal(kind: Sweep, a1: map<nat, Account>, a2: map<nat, Account>,
                       types: map<nat, AccountType>, id: nat, today: int)
    requires id in a1 && id in a2 && a1[id] == a2[id] && a1[id].typeId in types
    ensures Posting(kind, a1, types, id, today).rows == Posting(kind, a2, types, id, today).rows
    ensures Posting(kind, a1, types, id, today).accounts[id] == Posting(kind, a2, types, id, today).accounts[id]
  {
  }

  /** A posting leaves every other account as it was. */
  lemma PostingLeavesOthers(kind: Sweep, accounts: map<nat, Account>, types: map<nat, AccountType>,
                            id: nat, today: int, k: nat)
    requires id in accounts && accounts[id].typeId in types && k in accounts && k != id
    ensures Posting(kind, accounts, types, id, today).accounts[k] == accounts[k]
  {
    var e := Posting(kind, accounts, types, id, today);
    PostingAccounted(kind, accounts, types, id, today);
    assert Unreferenced(e.rows, k) by {
      forall i | 0 <= i < |e.rows| ensures !References(e.rows[i], k) {
        assert e.rows[i].source.Some? ==> e.rows[i].source.value in {id};
        assert e.rows[i].dest.Some? ==> e.rows[i].dest.value in {id};
      }
    }
    NetUnreferenced(e.rows, k);
  }

  predicate Distinct(order: seq<nat>)
  {
    forall i, j :: 0 <= i < j < |order| ==> order[i] != order[j]
  }

  predicate Listed(accounts: map<nat, Account>, order: seq<nat>)
  {
    forall i :: 0 <= i < |order| ==> order[i] in accounts
  }

  /** The postings of a sweep over `order`, one account after the other,
      each applied to the accounts as the previous ones left them. */
  function SweepEffect(kind: Sweep, accounts: map<nat, Account>, types: map<nat, AccountType>,
                       order: seq<nat>, today: int): (e: Effect)
    requires WellFormed(accounts, types) && Listed(accounts, order)
    ensures e.accounts.Keys == accounts.Keys
    ensures WellFormed(e.accounts, types)
    decreases |order|
  {
    if order == [] then Effect(accounts, [])
    else
      var prev := SweepEffect(kind, accounts, types, order[..|order| - 1], today);
      var id := order[|order| - 1];
      assert Typed(prev.accounts, types, id);
      var step := Posting(kind, prev.accounts, types, id, today);
      PostingAccounted(kind, prev.accounts, types, id, today);
      AccountedKeepsWellFormed(prev.accounts, step.accounts, types, step.rows);
      Effect(step.accounts, prev.rows + step.rows)
  }

  /** Whatever a sweep changes, it changes through its rows: every balance
      moves by what the sweep's rows move into it, and the rows name only
      accounts of the store. */
  lemma {:induction false} SweepAccounted(kind: Sweep, accounts: map<nat, Account>, types: map<nat, AccountType>,
                                          order: seq<nat>, today: int)
    requires WellFormed(accounts, types) && Listed(accounts, order)
    ensures var e := SweepEffect(kind, accounts, types, order, today);
            Accounted(accounts, e.accounts, e.rows) && RefersWithin(e.rows, accounts.Keys)
    decreases |order|
  {
    if order != [] {
      var init := order[..|order| - 1];
      var id := order[|order| - 1];
      SweepAccounted(kind, accounts, types, init, today);
      var prev := SweepEffect(kind, accounts, types, init, today);
      assert Typed(prev.accounts, types, id);
      var step := Posting(kind, prev.accounts, types, id, today);
      PostingAccounted(kind, prev.accounts, types, id, today);
      AccountedChain(accounts, prev.accounts, step.accounts, prev.rows, step.rows);
      RefersWithinWiden(step.rows, {id}, accounts.Keys);
      RefersWithinAppend(prev.rows, step.rows, accounts.Keys);
    }
  }

  /** The rows of each listed account's own posting, computed from the
      account as it was before the sweep, in the listed order. */
  function PostedRows(kind: Sweep, accounts: map<nat, Account>, types: map<nat, AccountType>,
                      order: seq<nat>, today: int): seq<Transaction>
    requires WellFormed(accounts, types) && Listed(accounts, order)
    decreases |order|
  {
    if order == [] then []
    else
      var id := order[|order| - 1];
      assert Typed(accounts, types, id);
      PostedRows(kind, accounts, types, order[..|order| - 1], today) + Posting(kind, accounts, types, id, today).rows
  }

  /** An account's record after its own posting, applied to `accounts`. */
  function PostedAccount(kind: Sweep, accounts: map<nat, Account>, types: map<nat, AccountType>,
                         id: nat, today: int): Account
    requires WellFormed(accounts, types) && id in accounts
  {
    assert Typed(accounts, types, id);
    Posting(kind, accounts, types, id, today).accounts[id]
  }

  lemma LastNotBefore(order: seq<nat>)
    requires order != [] && Distinct(order)
    ensures Distinct(order[..|order| - 1])
    ensures order[|order| - 1] !in order[..|order| - 1]
    ensures forall id :: id in order <==> id in order[..|order| - 1] || id == order[|order| - 1]
  {
    var init := order[..|order| - 1];
    assert order == init + [order[|order| - 1]];
    forall i | 0 <= i < |init| ensures init[i] != order[|order| - 1] {
      assert init[i] == order[i];
    }
  }

  /** A sweep over distinct accounts posts to each listed account exactly
      once, as if it were the only one: its new record is its own posting
      applied to its record before the sweep, and unlisted accounts are left
      alone. */
  lemma {:induction false} SweepPostsOnce(kind: Sweep, accounts: map<nat, Account>,
                                          types: map<nat, AccountType>, order: seq<nat>, today: int)
    requires WellFormed(accounts, types) && Listed(accounts, order) && Distinct(order)
    ensures var e := SweepEffect(kind, accounts, types, order, today);
            forall id :: id in accounts ==>
              e.accounts[id] == if id in order then PostedAccount(kind, accounts, types, id, today) else accounts[id]
    decreases |order|
  {
    if order != [] {
      var init := order[..|order| - 1];
      var last := order[|order| - 1];
      LastNotBefore(order);
      SweepPostsOnce(kind, accounts, types, init, today);
      var prev := SweepEffect(kind, accounts, types, init, today);
      assert prev.accounts[last] == accounts[last];
      assert Typed(accounts, types, last);
      PostingIsLocal(kind, prev.accounts, accounts, types, last, today);
      var e := SweepEffect(kind, accounts, types, order, today);
      assert e.accounts == Posting(kind, prev.accounts, types, last, today).accounts;
      forall id | id in accounts
        ensures e.accounts[id] == if id in order then PostedAccount(kind, accounts, types, id, today) else accounts[id]
      {
        if id != last {
          PostingLeavesOthers(kind, prev.accounts, types, last, today, id);
        }
      }
    }
  }

  /** The ledger gets each listed account's rows, computed from its record
      before the sweep, in the listed order. */
  lemma {:induction false} SweepRowsInOrder(kind: Sweep, accounts: map<nat, Account>,
                                            types: map<nat, AccountType>, order: seq<nat>, today: int)
    requires WellFormed(accounts, types) && Listed(accounts, order) && Distinct(order)
    ensures SweepEffect(kind, accounts, types, order, today).rows == PostedRows(kind, accounts, types, order, today)
    decreases |order|
  {
    if order != [] {
      var init := order[..|order| - 1];
      var last := order[|order| - 1];
      LastNotBefore(order);
      SweepRowsInOrder(kind, accounts, types, init, today);
      SweepPostsOnce(kind, accounts, types, init, today);
      var prev := SweepEffect(kind, accounts, types, init, today);
      assert prev.accounts[last] == accounts[last];
      assert Typed(accounts, types, last);
      PostingIsLocal(kind, prev.accounts, accounts, types, last, today);
    }
  }

  /** A sweep over one more account is the shorter sweep followed by the
      posting to that account. */
  lemma SweepStep(kind: Sweep, accounts: map<nat, Account>, types: map<nat, AccountType>,
                  order: seq<nat>, i: nat, today: int)
    requires WellFormed(accounts, types) && Listed(accounts, order) && i < |order|
    ensures Listed(accounts, order[..i]) && Listed(accounts, order[..i + 1])
    ensures var prev := SweepEffect(kind, accounts, types, order[..i], today);
            Typed(prev.accounts, types, order[i]) &&
            var step := Posting(kind, prev.accounts, types, order[i], today);
            SweepEffect(kind, accounts, types, order[..i + 1], today) == Effect(step.accounts, prev.rows + step.rows)
  {
    assert order[..i + 1][..i] == order[..i];
  }

  /** Proof aid, not a property of the sweeps: concatenation of rows
      associates. Stated once so the sweep proofs need not rediscover it. */
  lemma AppendAssociates(a: seq<Transaction>, b: seq<Transaction>, c: seq<Transaction>)
    ensures (a + b) + c == a + (b + c)
  {
  }

  /** The first scripted attempt that fails with an uncaught error, if any. */
  function FirstFatal(tries: seq<Attempts>): SweepEnd
  {
    FirstFatalFrom(tries, 0)
  }

  /** The first fatal attempt at position `from` or later, if any. */
  function FirstFatalFrom(tries: seq<Attempts>, from: nat): SweepEnd
    decreases |tries| - from
  {
    if from >= |tries| then Completed
    else if tries[from].fatal then Raised(from)
    else FirstFatalFrom(tries, from + 1)
  }

  /** A sweep ends at the first account whose posting fails with an
      uncaught error, and completes exactly when there is none. */
  lemma {:induction false} FirstFatalIsFirst(tries: seq<Attempts>, from: nat)
    ensures var r := FirstFatalFrom(tries, from);
            && (r.Raised? ==> from <= r.at < |tries| && tries[r.at].fatal &&
                              forall j :: from <= j < r.at ==> !tries[j].fatal)
            && (r.Completed? <==> forall j :: from <= j < |tries| ==> !tries[j].fatal)
    decreases |tries| - from
  {
    if from < |tries| && !tries[from].fatal {
      FirstFatalIsFirst(tries, from + 1);
    }
  }

  /** How many listed accounts a sweep that ended with `end` got through. */
  function Done(end: SweepEnd, total: nat): nat
  {
    if end.Raised? then end.at else total
  }

  /** Posts to one account, retrying while the store reports contention.
      Each attempt is all or nothing: a contended attempt is rolled back and
      leaves the store as it was, and the next attempt starts from the
      stored record (compare `RetriedMaintenanceAsWritten`). */
  method PostWithRetry(bank: Bank, kind: Sweep, id: nat, script: Attempts, today: int) returns (raised: bool)
    requires bank.Valid() && id in bank.accounts
    modifies bank
    ensures bank.Valid()
    ensures bank.types == old(bank.types) && bank.nextId == old(bank.nextId)
    ensures bank.opening == old(bank.opening)
    ensures raised == script.fatal
    ensures raised ==> bank.accounts == old(bank.accounts) && bank.ledger == old(bank.ledger)
    ensures !raised ==>
              assert Typed(old(bank.accounts), bank.types, id);
              var e := Posting(kind, old(bank.accounts), bank.types, id, today);
              bank.accounts == e.accounts && bank.ledger == old(bank.ledger) + e.rows
  {
    assert Typed(bank.accounts, bank.types, id);
    var attempt := 0;
    while true
      invariant attempt <= script.contended
      invariant bank.accounts == old(bank.accounts) && bank.ledger == old(bank.ledger)
      decreases script.contended - attempt
    {
      if attempt < script.contended {
        // contention: the attempt's database transaction is rolled back
        attempt := attempt + 1;
      } else if script.fatal {
        // any other error leaves the sweep
        return true;
      } else {
        if kind.Interest? {
          bank.PayMonthlyInterest(id, kind.monthlyRate, today);
        } else {
          bank.ChargeMonthlyMaintenance(id, today);
        }
        return false;
      }
    }
  }

  // ---------------------------------------------------------------------
  // Retrying with the held account object

  /** The account object the fee sweep holds after `failed` attempts that
      each lowered its balance by the fee in memory and then failed to
      write: the store rolls the attempt back, the object keeps the change. */
  function StaleAfterFailures(held: Account, fee: int, failed: nat): (a: Account)
    ensures a.owner == held.owner && a.typeId == held.typeId && a.maturity == held.maturity
    decreases failed
  {
    if failed == 0 then held
    else StaleAfterFailures(held.(balance := held.balance - fee), fee, failed - 1)
  }

  /** Every failed attempt leaves the held balance one fee lower. */
  lemma {:induction false} StaleBalance(held: Account, fee: int, failed: nat)
    ensures StaleAfterFailures(held, fee, failed) == held.(balance := held.balance - failed * fee)
    decreases failed
  {
    if failed > 0 {
      StaleBalance(held.(balance := held.balance - fee), fee, failed - 1);
      assert held.balance - fee - (failed - 1) * fee == held.balance - failed * fee;
    }
  }

  /** The maintenance charge as the fee sweep retries it: the attempt that
      finally writes starts from the held object, whose balance the failed
      attempts already lowered, and stores one fee row. */
  function RetriedMaintenanceAsWritten(held: Account, id: nat, fee: int, failed: nat, today: int)
    : (r: (Account, seq<Transaction>))
    ensures r.0.owner == held.owner && r.0.typeId == held.typeId && r.0.maturity == held.maturity
    ensures r.1 == [] <==> fee == 0
  {
    if fee == 0 then (held, [])
    else
      var last := StaleAfterFailures(held, fee, failed);
      (last.(balance := last.balance - fee), [Transaction(MaintenanceFee, today, Some(id), None, fee)])
  }

  /** After a contended attempt the fee is taken from the balance once per
      attempt but recorded once in the ledger, so the stored balance no
      longer equals the old balance plus what the new rows move into it. */
  lemma RetriedMaintenanceAsWrittenOvercharges(held: Account, id: nat, fee: int, failed: nat, today: int)
    requires fee != 0 && failed >= 1
    ensures var (stored, rows) := RetriedMaintenanceAsWritten(held, id, fee, failed, today);
            && stored.balance == held.balance - (failed + 1) * fee
            && stored.balance != held.balance + Net(rows, id)
  {
    var (stored, rows) := RetriedMaintenanceAsWritten(held, id, fee, failed, today);
    StaleBalance(held, fee, failed);
    NetOfOne(rows[0]);
    assert Net(rows, id) == -fee;
    assert failed * fee != 0;
  }

  /** Without contention the fee sweep as written charges exactly what the
      corrected posting charges. */
  lemma RetriedMaintenanceAsWrittenWithoutContention(accounts: map<nat, Account>, types: map<nat, AccountType>,
                                                     id: nat, today: int)
    requires id in accounts && accounts[id].typeId in types
    ensures var (stored, rows) := RetriedMaintenanceAsWritten(accounts[id], id, types[accounts[id].typeId].maintenanceFee, 0, today);
            MaintenancePosting(accounts, types, id, today) == Effect(accounts[id := stored], rows)
  {
  }

  /** The balance the interest sweep's held account object carries after
      `failed` attempts that each added a month's interest in memory, unrounded,
      and then failed to write. */
  function StaleInterestBalance(held: real, rate: real, failed: nat): (b: real)
    ensures held == 0.0 ==> b == 0.0
    decreases failed
  {
    if failed == 0 then held
    else StaleInterestBalance(held + held * rate, rate, failed - 1)
  }

  /** The interest posting as the interest sweep retries it: the attempt that
      finally writes computes the interest on the held balance, which the
      failed attempts already raised, stores that balance plus the interest
      rounded to cents, and writes one row for its own interest. The result
      is the stored balance and the rows. */
  function RetriedInterestAsWritten(held: Account, id: nat, rate: real, failed: nat, today: int)
    : (r: (int, seq<Transaction>))
    ensures |r.1| <= 1
    ensures r.1 != [] ==> r.1[0].description == InterestPaid && r.1[0].source == None && r.1[0].dest == Some(id)
  {
    InterestWrite(held.balance, StaleInterestBalance(held.balance as real, rate, failed), rate, id, today)
  }

  /** One attempt of the interest posting on an account stored with
      `stored` cents and held in memory with balance `held`. */
  function InterestWrite(stored: int, held: real, rate: real, id: nat, today: int)
    : (r: (int, seq<Transaction>))
    ensures |r.1| <= 1
    ensures r.1 != [] ==> r.1[0].description == InterestPaid && r.1[0].source == None && r.1[0].dest == Some(id)
  {
    var interest := held * rate;
    if interest == 0.0 then (stored, [])
    else (RoundHalfEven(held + interest), [Transaction(InterestPaid, today, None, Some(id), RoundHalfEven(interest))])
  }

  /** Without a contended attempt the interest sweep as written writes the
      rows of `Ledger.InterestPosting`, and its stored balance is within a
      cent of the model's (the two round at different points). */
  lemma RetriedInterestAsWrittenWithoutContention(accounts: map<nat, Account>, types: map<nat, AccountType>,
                                                  id: nat, monthlyRate: real -> real, today: int)
    requires id in accounts && accounts[id].typeId in types
    ensures var r := RetriedInterestAsWritten(accounts[id], id, monthlyRate(types[accounts[id].typeId].apy), 0, today);
            var e := InterestPosting(accounts, types, id, monthlyRate, today);
            r.1 == e.rows && -1 <= r.0 - e.accounts[id].balance <= 1
  {
    var a := accounts[id];
    var rate := monthlyRate(types[a.typeId].apy);
    RetriedOnceIsOneWrite(a, id, rate, today);
    FreshInterestWrite(a.balance, rate, id, today);
    PostingOnRate(accounts, types, id, monthlyRate, today);
  }

  /** Proof aid, not a property of the sweeps: `Ledger.InterestPosting`
      restated in terms of the balance and the monthly rate, which keeps the
      solver away from rounding inside sequence equalities. */
  lemma PostingOnRate(accounts: map<nat, Account>, types: map<nat, AccountType>,
                      id: nat, monthlyRate: real -> real, today: int)
    requires id in accounts && accounts[id].typeId in types
    ensures var a := accounts[id];
            var x := MonthlyInterest(a, types[a.typeId], monthlyRate);
            var e := InterestPosting(accounts, types, id, monthlyRate, today);
            && x == (a.balance as real) * monthlyRate(types[a.typeId].apy)
            && (x == 0.0 ==> e.rows == [] && e.accounts[id].balance == a.balance)
            && (x != 0.0 ==>
                  && e.rows == [Transaction(InterestPaid, today, None, Some(id), RoundHalfEven(x))]
                  && e.accounts[id].balance == a.balance + RoundHalfEven(x))
  {
  }

  /** With no failed attempt the sweep makes one attempt from the stored
      balance. */
  lemma RetriedOnceIsOneWrite(held: Account, id: nat, rate: real, today: int)
    ensures RetriedInterestAsWritten(held, id, rate, 0, today)
              == InterestWrite(held.balance, held.balance as real, rate, id, today)
  {
    assert StaleInterestBalance(held.balance as real, rate, 0) == held.balance as real;
  }

  /** An attempt on an account whose held balance is the stored one writes
      nothing when the interest is zero, and otherwise writes the interest
      row and stores within a cent of the stored balance plus the rounded
      interest. */
  lemma FreshInterestWrite(balance: int, rate: real, id: nat, today: int)
    ensures var r := InterestWrite(balance, balance as real, rate, id, today);
            && ((balance as real) * rate == 0.0 ==> r == (balance, []))
            && ((balance as real) * rate != 0.0 ==>
                  && r.1 == [Transaction(InterestPaid, today, None, Some(id), RoundHalfEven((balance as real) * rate))]
                  && -1 <= r.0 - (balance + RoundHalfEven((balance as real) * rate)) <= 1)
  {
    if (balance as real) * rate != 0.0 {
      InterestWriteCredits(balance, balance as real, rate, id, today);
      RoundingPoints(balance, (balance as real) * rate);
    }
  }

  /** Proof aid, not a property of the sweeps: the body of `InterestWrite`
      for non-zero interest, stated as one lemma so the callers' proofs stay
      small. */
  lemma InterestWriteCredits(stored: int, held: real, rate: real, id: nat, today: int)
    requires held * rate != 0.0
    ensures InterestWrite(stored, held, rate, id, today) ==
              (RoundHalfEven(held + held * rate), [Transaction(InterestPaid, today, None, Some(id), RoundHalfEven(held * rate))])
  {
  }

  /** Rounding a whole number of cents plus `x` lands within a cent of the
      whole number plus `x` rounded. */
  lemma RoundingPoints(cents: int, x: real)
    ensures -1 <= RoundHalfEven(cents as real + x) - (cents + RoundHalfEven(x)) <= 1
  {
    var s := RoundHalfEven(cents as real + x);
    var c := RoundHalfEven(x);
    assert (s as real) - 0.5 <= cents as real + x <= (s as real) + 0.5;
    assert (c as real) - 0.5 <= x <= (c as real) + 0.5;
  }

  /** 1000.00 at a monthly rate of 0.01 with one contended attempt: the
      stored balance is 1020.10, while the ledger's single row credits 10.10,
      so the balance no longer equals the old balance plus what the rows move
      into it. */
  lemma RetriedInterestAsWrittenOvercredits(held: Account, id: nat, today: int)
    requires held.balance == 100000
    ensures var (stored, rows) := RetriedInterestAsWritten(held, id, 0.01, 1, today);
            && stored == 102010
            && rows == [Transaction(InterestPaid, today, None, Some(id), 1010)]
            && stored != held.balance + Net(rows, id)
  {
    assert StaleInterestBalance(held.balance as real, 0.01, 1) == 101000.0;
    assert RoundHalfEven(102010.0) == 102010;
    assert RoundHalfEven(1010.0) == 1010;
    NetOfOne(Transaction(InterestPaid, today, None, Some(id), 1010));
  }

  /** Posts to the account at position `i` of a sweep that has got through
      the accounts before it. */
  method PostNext(bank: Bank, kind: Sweep, ghost start: map<nat, Account>, ghost startLedger: seq<Transaction>,
                  order: seq<nat>, i: nat, script: Attempts, today: int) returns (raised: bool)
    requires bank.Valid() && i < |order|
    requires WellFormed(start, bank.types) && Listed(start, order)
    requires var e := SweepEffect(kind, start, bank.types, order[..i], today);
             bank.accounts == e.accounts && bank.ledger == startLedger + e.rows
    modifies bank
    ensures bank.Valid()
    ensures bank.types == old(bank.types) && bank.nextId == old(bank.nextId)
    ensures bank.opening == old(bank.opening)
    ensures raised == script.fatal
    ensures raised ==> bank.accounts == old(bank.accounts) && bank.ledger == old(bank.ledger)
    ensures !raised ==>
              var e := SweepEffect(kind, start, bank.types, order[..i + 1], today);
              bank.accounts == e.accounts && bank.ledger == startLedger + e.rows
  {
    SweepStep(kind, start, bank.types, order, i, today);
    ghost var prev := SweepEffect(kind, start, bank.types, order[..i], today);
    ghost var step := Posting(kind, prev.accounts, bank.types, order[i], today);
    raised := PostWithRetry(bank, kind, order[i], script, today);
    AppendAssociates(startLedger, prev.rows, step.rows);
  }

  /** Runs one sweep over the accounts in the listed order. An attempt that
      meets contention is retried on the same account; a successful attempt
      moves on to the next account; any other error ends the sweep. */
  method RunSweep(bank: Bank, kind: Sweep, order: seq<nat>, tries: seq<Attempts>, today: int)
    returns (end: SweepEnd)
    requires bank.Valid()
    requires Listed(bank.accounts, order)
    requires |tries| == |order|
    modifies bank
    ensures bank.Valid()
    ensures bank.types == old(bank.types) && bank.nextId == old(bank.nextId)
    ensures bank.opening == old(bank.opening)
    ensures end == FirstFatal(tries)
    ensures Done(end, |order|) <= |order|
    ensures var e := SweepEffect(kind, old(bank.accounts), bank.types, order[..Done(end, |order|)], today);
            bank.accounts == e.accounts && bank.ledger == old(bank.ledger) + e.rows
  {
    ghost var start := bank.accounts;
    ghost var startLedger := bank.ledger;
    var i := 0;
    while i < |order|
      invariant 0 <= i <= |order|
      invariant bank.Valid()
      invariant bank.types == old(bank.types) && bank.nextId == old(bank.nextId)
      invariant bank.opening == old(bank.opening)
      invariant FirstFatalFrom(tries, i) == FirstFatal(tries)
      invariant WellFormed(start, bank.types) && Listed(start, order)
      invariant var e := SweepEffect(kind, start, bank.types, order[..i], today);
                bank.accounts == e.accounts && bank.ledger == startLedger + e.rows
    {
      var raised := PostNext(bank, kind, start, startLedger, order, i, tries[i], today);
      if raised {
        return Raised(i);
      }
      i := i + 1;
    }
    assert order[..|order|] == order;
    end := Completed;
  }

  /** Pays the month's interest on every account. */
  method PayMonthlyInterest(bank: Bank, order: seq<nat>, monthlyRate: real -> real,
                            tries: seq<Attempts>, today: int) returns (end: SweepEnd)
    requires bank.Valid()
    requires Distinct(order) && (forall id :: id in order <==> id in bank.accounts)
    requires |tries| == |order|
    modifies bank
    ensures bank.Valid()
    ensures bank.types == old(bank.types) && bank.nextId == old(bank.nextId)
    ensures bank.opening == old(bank.opening)
    ensures end == FirstFatal(tries) && Done(end, |order|) <= |order|
    ensures var e := SweepEffect(Interest(monthlyRate), old(bank.accounts), bank.types,
                                 order[..Done(end, |order|)], today);
            bank.accounts == e.accounts && bank.ledger == old(bank.ledger) + e.rows
  {
    assert Listed(bank.accounts, order);
    end := RunSweep(bank, Interest(monthlyRate), order, tries, today);
  }

  /** Charges the month's maintenance fee to every account. */
  method ChargeMonthlyFees(bank: Bank, order: seq<nat>, tries: seq<Attempts>, today: int)
    returns (end: SweepEnd)
    requires bank.Valid()
    requires Distinct(order) && (forall id :: id in order <==> id in bank.accounts)
    requires |tries| == |order|
    modifies bank
    ensures bank.Valid()
    ensures bank.types == old(bank.types) && bank.nextId == old(bank.nextId)
    ensures bank.opening == old(bank.opening)
    ensures end == FirstFatal(tries) && Done(end, |order|) <= |order|
    ensures var e := SweepEffect(Maintenance, old(bank.accounts), bank.types,
                                 order[..Done(end, |order|)], today);
            bank.accounts == e.accounts && bank.ledger == old(bank.ledger) + e.rows
  {
    assert Listed(bank.accounts, order);
    end := RunSweep(bank, Maintenance, order, tries, today);
  }
}
