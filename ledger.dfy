/** The ledger engine: moving money between two accounts, opening an
    account with an optional funded first deposit, and the monthly interest
    and maintenance postings.

    Each operation is given twice: as a function from the store's accounts to
    the outcome, the new accounts and the ledger rows it appends, which the
    lemmas below reason about, and as a method of `Bank` that updates the
    store in place and is proved to do what the function says. The database
    transactions of bank/utils.py map onto the methods as follows. The
    overdraft-fee, funds-transfer, interest and maintenance blocks are each
    one `Commit` of their accounts and rows together. The outer block of
    opening an account holds the other two as savepoints. It is modelled as a
    sequence: `CreateAccount`, then the `Commit`s inside `TransferFunds`, then
    `DeleteAccount` when the deposit fails. No step of that sequence can fail
    in the model, so the sequence has the effect of the whole block. */
module Ledger {
  import opened Models

  // ---------------------------------------------------------------------
  // Replies and row descriptions

  /** The reply of a transfer or of opening an account. */
  datatype Message =
    | Success
    | NonPositiveAmount
    | SameAccount
    | InsufficientFunds
    | InsufficientMinimumBalance
    | MaturityNotReached
    | DepositTooSmall

  /** The text the caller shows for a reply. */
  function MessageText(m: Message): (s: string)
    ensures s == "Success" <==> m == Success
  {
    match m
    case Success => "Success"
    case NonPositiveAmount => "Cannot Withdraw Negative or Zero Amount of Funds"
    case SameAccount => "Source and Destination Accounts Must Not be the Same"
    case InsufficientFunds => "Insufficient Funds"
    case InsufficientMinimumBalance => "Insufficient Minimum Balance"
    case MaturityNotReached => "Account Maturity Not Reached"
    case DepositTooSmall => "Initial Deposit Too Small"
  }

  /** Each reply has its own text, so the caller can tell them apart. */
  lemma MessageTextInjective(m: Message, n: Message)
    requires MessageText(m) == MessageText(n)
    ensures m == n
  {
  }

  /** The promotional credit a new savings account starts with: 50.00. */
  const PromotionalCredit: int := 5000

  // ---------------------------------------------------------------------
  // What the ledger says about an account

  /** What one row adds to (dest) or takes from (source) an account. */
  function Flow(t: Transaction, id: nat): int
  {
    (if t.dest == Some(id) then t.amount else 0) - (if t.source == Some(id) then t.amount else 0)
  }

  /** The net amount a run of rows moves into an account. */
  function Net(rows: seq<Transaction>, id: nat): int
  {
    if rows == [] then 0 else Flow(rows[0], id) + Net(rows[1..], id)
  }

  lemma {:induction false} NetAppend(a: seq<Transaction>, b: seq<Transaction>, id: nat)
    ensures Net(a + b, id) == Net(a, id) + Net(b, id)
  {
    if a == [] {
      assert a + b == b;
    } else {
      assert (a + b)[1..] == a[1..] + b;
      NetAppend(a[1..], b, id);
    }
  }

  lemma NetOfOne(t: Transaction)
    ensures forall id :: Net([t], id) == Flow(t, id)
  {
    forall id ensures Net([t], id) == Flow(t, id) {
      assert [t][1..] == [];
    }
  }

  predicate References(t: Transaction, id: nat)
  {
    t.source == Some(id) || t.dest == Some(id)
  }

  /** No row names the account. */
  predicate Unreferenced(rows: seq<Transaction>, id: nat)
  {
    forall i :: 0 <= i < |rows| ==> !References(rows[i], id)
  }

  /** Every account a row names is among `ids` (the rows' foreign keys hold). */
  predicate RefersWithin(rows: seq<Transaction>, ids: set<nat>)
  {
    forall i :: 0 <= i < |rows| ==>
      (rows[i].source.Some? ==> rows[i].source.value in ids) &&
      (rows[i].dest.Some? ==> rows[i].dest.value in ids)
  }

  /** The rows that name no account move nothing into it. */
  lemma {:induction false} NetUnreferenced(rows: seq<Transaction>, id: nat)
    requires Unreferenced(rows, id)
    ensures Net(rows, id) == 0
  {
    if rows != [] {
      assert !References(rows[0], id);
      NetUnreferenced(rows[1..], id);
    }
  }

  /** The ledger rows left once an account is deleted: the rows naming it
      are deleted with it, and every other row is kept. */
  function Cascade(rows: seq<Transaction>, id: nat): (r: seq<Transaction>)
    ensures Unreferenced(r, id)
    ensures forall t :: t in r <==> t in rows && !References(t, id)
    ensures |r| <= |rows|
    ensures Unreferenced(rows, id) ==> r == rows
  {
    if rows == [] then []
    else
      var rest := Cascade(rows[1..], id);
      if References(rows[0], id) then rest
      else
        assert forall i :: 1 <= i < |[rows[0]] + rest| ==> ([rows[0]] + rest)[i] == rest[i - 1];
        assert Unreferenced(rows, id) ==> Unreferenced(rows[1..], id) by {
          if Unreferenced(rows, id) {
            forall i | 0 <= i < |rows[1..]| ensures !References(rows[1..][i], id) {
              assert rows[1..][i] == rows[i + 1];
            }
          }
        }
        [rows[0]] + rest
  }

  /** Deleting keeps the order of the rows that stay: the rows left from a
      ledger are those left from its first part followed by those left
      from the rest. */
  lemma {:induction false} CascadeAppend(a: seq<Transaction>, b: seq<Transaction>, id: nat)
    ensures Cascade(a + b, id) == Cascade(a, id) + Cascade(b, id)
  {
    if a == [] {
      assert a + b == b;
    } else {
      assert (a + b)[0] == a[0];
      assert (a + b)[1..] == a[1..] + b;
      CascadeAppend(a[1..], b, id);
    }
  }

  /** A single row stays exactly when it does not name the account. */
  lemma CascadeOne(t: Transaction, id: nat)
    ensures Cascade([t], id) == if References(t, id) then [] else [t]
  {
    assert [t][1..] == [];
  }

  /** Rows confined to `ids` name no account outside it. */
  lemma UnreferencedOutside(rows: seq<Transaction>, ids: set<nat>, id: nat)
    requires RefersWithin(rows, ids) && id !in ids
    ensures Unreferenced(rows, id)
  {
  }

  lemma UnreferencedAppend(a: seq<Transaction>, b: seq<Transaction>, id: nat)
    requires Unreferenced(a, id) && Unreferenced(b, id)
    ensures Unreferenced(a + b, id)
  {
    forall i | 0 <= i < |a + b| ensures !References((a + b)[i], id) {
      if i < |a| { assert (a + b)[i] == a[i]; } else { assert (a + b)[i] == b[i - |a|]; }
    }
  }

  lemma RefersWithinNarrow(rows: seq<Transaction>, ids: set<nat>, id: nat)
    requires RefersWithin(rows, ids) && Unreferenced(rows, id)
    ensures RefersWithin(rows, ids - {id})
  {
    forall i | 0 <= i < |rows|
      ensures (rows[i].source.Some? ==> rows[i].source.value in ids - {id}) &&
              (rows[i].dest.Some? ==> rows[i].dest.value in ids - {id})
    {
      assert !References(rows[i], id);
    }
  }

  /** `after` is `before` with the rows posted: on every account both hold,
      the balance moved by exactly what the rows move into it and nothing
      else about the account changed. */
  predicate Accounted(before: map<nat, Account>, after: map<nat, Account>, rows: seq<Transaction>)
  {
    forall id :: id in before && id in after ==>
      after[id] == before[id].(balance := before[id].balance + Net(rows, id))
  }

  lemma AccountedChain(a: map<nat, Account>, b: map<nat, Account>, c: map<nat, Account>,
                       r1: seq<Transaction>, r2: seq<Transaction>)
    requires a.Keys == b.Keys
    requires Accounted(a, b, r1) && Accounted(b, c, r2)
    ensures Accounted(a, c, r1 + r2)
  {
    forall id | id in a && id in c
      ensures c[id] == a[id].(balance := a[id].balance + Net(r1 + r2, id))
    {
      NetAppend(r1, r2, id);
    }
  }

  // ---------------------------------------------------------------------
  // The store's accounts

  /** The account exists, its type is in the catalog and, if it is a
      certificate of deposit, it carries a maturity day. */
  predicate Typed(accounts: map<nat, Account>, types: map<nat, AccountType>, id: nat)
  {
    && id in accounts
    && accounts[id].typeId in types
    && (types[accounts[id].typeId].category == CertificateOfDeposit ==> accounts[id].maturity.Some?)
  }

  predicate WellFormed(accounts: map<nat, Account>, types: map<nat, AccountType>)
  {
    forall id :: id in accounts ==> Typed(accounts, types, id)
  }

  lemma AccountedKeepsWellFormed(before: map<nat, Account>, after: map<nat, Account>,
                                 types: map<nat, AccountType>, rows: seq<Transaction>)
    requires WellFormed(before, types) && after.Keys <= before.Keys && Accounted(before, after, rows)
    ensures WellFormed(after, types)
  {
    forall id | id in after ensures Typed(after, types, id) {
      assert after[id].typeId == before[id].typeId && after[id].maturity == before[id].maturity;
      assert Typed(before, types, id);
    }
  }

  /** The changed accounts and the appended rows of one step. */
  datatype Effect = Effect(accounts: map<nat, Account>, rows: seq<Transaction>)

  /** What a transfer or an opening replies, and what it does. */
  datatype Outcome = Outcome(ok: bool, msg: Message, effect: Effect)

  // ---------------------------------------------------------------------
  // Transfers

  /** The overdraft charge: the source pays its type's overdraft fee, with
      one row naming the account the attempted deposit was to. */
  function OverdraftCharge(accounts: map<nat, Account>, types: map<nat, AccountType>,
                           sourceId: nat, destId: nat, today: int): (e: Effect)
    requires sourceId in accounts && accounts[sourceId].typeId in types
    ensures e.accounts.Keys == accounts.Keys
    ensures e.accounts[sourceId].balance == accounts[sourceId].balance - types[accounts[sourceId].typeId].overdraftFee
    ensures |e.rows| == 1 && e.rows[0].source == Some(sourceId) && e.rows[0].dest == None
    ensures e.rows[0].amount == types[accounts[sourceId].typeId].overdraftFee
  {
    var source := accounts[sourceId];
    var fee := types[source.typeId].overdraftFee;
    Effect(accounts[sourceId := source.(balance := source.balance - fee)],
           [Transaction(OverdraftFee(destId), today, Some(sourceId), None, fee)])
  }

  /** Moving `amount` cents from one account to another, with one row. */
  function FundsMove(accounts: map<nat, Account>, sourceId: nat, destId: nat, amount: int, today: int): (e: Effect)
    requires sourceId in accounts && destId in accounts
    ensures e.accounts.Keys == accounts.Keys
    ensures sourceId != destId ==>
              && e.accounts[sourceId].balance == accounts[sourceId].balance - amount
              && e.accounts[destId].balance == accounts[destId].balance + amount
    ensures |e.rows| == 1 && e.rows[0].source == Some(sourceId) && e.rows[0].dest == Some(destId)
    ensures e.rows[0].amount == amount
  {
    Effect(accounts[sourceId := accounts[sourceId].(balance := accounts[sourceId].balance - amount)]
                   [destId := accounts[destId].(balance := accounts[destId].balance + amount)],
           [Transaction(FundsTransfer, today, Some(sourceId), Some(destId), amount)])
  }

  /** A transfer of `amount` cents from `sourceId` to `destId` on day
      `today`. The checks run in order and the first that fails decides the
      reply. Only the shortfall check has an effect: the source pays its
      type's overdraft fee, with its own row, whatever the fee. */
  function Transfer(accounts: map<nat, Account>, types: map<nat, AccountType>,
                    sourceId: nat, destId: nat, amount: int, today: int): (o: Outcome)
    requires Typed(accounts, types, sourceId) && destId in accounts
    ensures o.ok <==> o.msg == Success
    ensures o.effect.accounts.Keys == accounts.Keys
    ensures !o.ok && o.msg != InsufficientFunds ==> o.effect == Effect(accounts, [])
    ensures o.ok ==> amount > 0 && sourceId != destId
  {
    var source := accounts[sourceId];
    var dest := accounts[destId];
    var t := types[source.typeId];
    if amount <= 0 then
      Outcome(false, NonPositiveAmount, Effect(accounts, []))
    else if sourceId == destId then
      Outcome(false, SameAccount, Effect(accounts, []))
    else if source.balance < amount then
      Outcome(false, InsufficientFunds, OverdraftCharge(accounts, types, sourceId, destId, today))
    else if source.balance - amount < t.minBalance then
      Outcome(false, InsufficientMinimumBalance, Effect(accounts, []))
    else if t.category == CertificateOfDeposit && today < source.maturity.value then
      Outcome(false, MaturityNotReached, Effect(accounts, []))
    else
      Outcome(true, Success, FundsMove(accounts, sourceId, destId, amount, today))
  }

  /** A transfer changes balances only through its rows, its rows name only
      the two accounts, and a failed transfer writes no row naming the
      destination. */
  lemma TransferAccounted(accounts: map<nat, Account>, types: map<nat, AccountType>,
                          sourceId: nat, destId: nat, amount: int, today: int)
    requires Typed(accounts, types, sourceId) && destId in accounts
    ensures var o := Transfer(accounts, types, sourceId, destId, amount, today);
            && Accounted(accounts, o.effect.accounts, o.effect.rows)
            && RefersWithin(o.effect.rows, {sourceId, destId})
            && (!o.ok ==> Unreferenced(o.effect.rows, destId))
  {
    var o := Transfer(accounts, types, sourceId, destId, amount, today);
    TransferRefers(accounts, types, sourceId, destId, amount, today);
    if o.msg == InsufficientFunds {
      DebitAccounted(accounts, sourceId, o.effect.rows[0]);
    } else if o.ok {
      MoveAccounted(accounts, sourceId, destId, o.effect.rows[0]);
    }
  }

  lemma TransferRefers(accounts: map<nat, Account>, types: map<nat, AccountType>,
                       sourceId: nat, destId: nat, amount: int, today: int)
    requires Typed(accounts, types, sourceId) && destId in accounts
    ensures var o := Transfer(accounts, types, sourceId, destId, amount, today);
            && RefersWithin(o.effect.rows, {sourceId, destId})
            && (!o.ok ==> Unreferenced(o.effect.rows, destId))
  {
  }

  /** One row debiting an account to outside the bank. */
  lemma DebitAccounted(accounts: map<nat, Account>, id: nat, t: Transaction)
    requires id in accounts && t.source == Some(id) && t.dest == None
    ensures Accounted(accounts, accounts[id := accounts[id].(balance := accounts[id].balance - t.amount)], [t])
  {
    NetOfOne(t);
  }

  /** One row moving money between two different accounts. */
  lemma MoveAccounted(accounts: map<nat, Account>, sourceId: nat, destId: nat, t: Transaction)
    requires sourceId in accounts && destId in accounts && sourceId != destId
    requires t.source == Some(sourceId) && t.dest == Some(destId)
    ensures Accounted(accounts,
                      accounts[sourceId := accounts[sourceId].(balance := accounts[sourceId].balance - t.amount)]
                              [destId := accounts[destId].(balance := accounts[destId].balance + t.amount)], [t])
  {
    NetOfOne(t);
  }

  /** The order of the checks: each reply names the first check that fails. */
  lemma TransferDecision(accounts: map<nat, Account>, types: map<nat, AccountType>,
                         sourceId: nat, destId: nat, amount: int, today: int)
    requires Typed(accounts, types, sourceId) && destId in accounts
    ensures var o := Transfer(accounts, types, sourceId, destId, amount, today);
            var b := accounts[sourceId].balance;
            var t := types[accounts[sourceId].typeId];
            && (o.msg == NonPositiveAmount <==> amount <= 0)
            && (o.msg == SameAccount <==> amount > 0 && sourceId == destId)
            && (o.msg == InsufficientFunds <==> amount > 0 && sourceId != destId && b < amount)
            && (o.msg == InsufficientMinimumBalance <==>
                  amount > 0 && sourceId != destId && b >= amount && b - amount < t.minBalance)
            && (o.msg == MaturityNotReached <==>
                  amount > 0 && sourceId != destId && b >= amount && b - amount >= t.minBalance &&
                  t.category == CertificateOfDeposit && today < accounts[sourceId].maturity.value)
            && (o.ok <==>
                  amount > 0 && sourceId != destId && b >= amount && b - amount >= t.minBalance &&
                  !(t.category == CertificateOfDeposit && today < accounts[sourceId].maturity.value))
  {
  }

  /** A transfer short of funds debits exactly the overdraft fee from the
      source, with one row for it even when the fee is zero, leaves every
      other account alone, and does so even when the minimum-balance or
      maturity checks would have failed too. */
  lemma OverdraftCharged(accounts: map<nat, Account>, types: map<nat, AccountType>,
                                            sourceId: nat, destId: nat, amount: int, today: int)
    requires Typed(accounts, types, sourceId) && destId in accounts
    requires amount > 0 && sourceId != destId && accounts[sourceId].balance < amount
    ensures var o := Transfer(accounts, types, sourceId, destId, amount, today);
            var fee := types[accounts[sourceId].typeId].overdraftFee;
            && !o.ok && o.msg == InsufficientFunds
            && o.effect.rows == [Transaction(OverdraftFee(destId), today, Some(sourceId), None, fee)]
            && o.effect.accounts == accounts[sourceId := accounts[sourceId].(balance := accounts[sourceId].balance - fee)]
            && o.effect.accounts[sourceId].balance == accounts[sourceId].balance - fee
            && forall id :: id in accounts && id != sourceId ==> o.effect.accounts[id] == accounts[id]
  {
    var o := Transfer(accounts, types, sourceId, destId, amount, today);
    var row := o.effect.rows[0];
    NetOfOne(row);
    forall id | id in accounts && id != sourceId
      ensures o.effect.accounts[id] == accounts[id]
    {
      assert Flow(row, id) == 0;
    }
  }

  /** A transfer whose amount equals the balance is not short of funds: it
      goes on to the minimum-balance check. */
  lemma WholeBalanceReachesMinimumCheck(accounts: map<nat, Account>, types: map<nat, AccountType>,
                                        sourceId: nat, destId: nat, today: int)
    requires Typed(accounts, types, sourceId) && destId in accounts
    requires sourceId != destId && accounts[sourceId].balance > 0
    ensures var o := Transfer(accounts, types, sourceId, destId, accounts[sourceId].balance, today);
            o.msg != InsufficientFunds &&
            (o.msg == InsufficientMinimumBalance <==> types[accounts[sourceId].typeId].minBalance > 0)
  {
  }

  /** A successful transfer appends one row from source to destination and
      moves the amount between them: their two balances together are what
      they were, and no other account changes. */
  lemma TransferConserves(accounts: map<nat, Account>, types: map<nat, AccountType>,
                                             sourceId: nat, destId: nat, amount: int, today: int)
    requires Typed(accounts, types, sourceId) && destId in accounts
    ensures var o := Transfer(accounts, types, sourceId, destId, amount, today);
            o.ok ==>
              && o.effect.rows == [Transaction(FundsTransfer, today, Some(sourceId), Some(destId), amount)]
              && o.effect.accounts == accounts[sourceId := accounts[sourceId].(balance := accounts[sourceId].balance - amount)]
                                              [destId := accounts[destId].(balance := accounts[destId].balance + amount)]
              && o.effect.accounts[sourceId].balance == accounts[sourceId].balance - amount
              && o.effect.accounts[destId].balance == accounts[destId].balance + amount
              && o.effect.accounts[sourceId].balance + o.effect.accounts[destId].balance
                   == accounts[sourceId].balance + accounts[destId].balance
              && forall id :: id in accounts && id != sourceId && id != destId ==>
                   o.effect.accounts[id] == accounts[id]
  {
    var o := Transfer(accounts, types, sourceId, destId, amount, today);
    if o.ok {
      var row := o.effect.rows[0];
      NetOfOne(row);
      assert Flow(row, sourceId) == -amount && Flow(row, destId) == amount;
      forall id | id in accounts && id != sourceId && id != destId
        ensures o.effect.accounts[id] == accounts[id]
      {
        assert Flow(row, id) == 0;
      }
    }
  }

  // ---------------------------------------------------------------------
  // Opening an account

  /** A new account of type `t` before any deposit: a certificate of
      deposit matures `t.maturityPeriod` days after opening, a savings
      account starts with the promotional credit, others start empty. */
  function InitialAccount(owner: nat, typeId: nat, t: AccountType, today: int): (a: Account)
    ensures a.owner == owner && a.typeId == typeId
    ensures a.maturity.Some? <==> t.category == CertificateOfDeposit
    ensures a.maturity.Some? ==> a.maturity.value == today + t.maturityPeriod
    ensures a.balance == if t.category == Savings then PromotionalCredit else 0
  {
    var a := NewAccount(owner, typeId);
    if t.category == CertificateOfDeposit then a.(maturity := Some(today + t.maturityPeriod))
    else if t.category == Savings then a.(balance := PromotionalCredit)
    else a
  }

  /** A certificate of deposit type declared without a maturity period
      matures on the day the account is opened. */
  lemma DefaultCertificateMaturesAtOpening(owner: nat, typeId: nat, name: string, minDeposit: int,
                                           minBalance: int, maintenanceFee: int, overdraftFee: int, today: int)
    ensures var t := NewAccountType(name, CertificateOfDeposit, minDeposit, minBalance, maintenanceFee, overdraftFee);
            InitialAccount(owner, typeId, t, today) == Account(owner, typeId, 0, Some(today))
  {
  }

  /** What opening an account does: `newId` is the key the store gives the
      new account, `nextId` the key after it once the account is inserted. */
  datatype Opening = Opening(outcome: Outcome, nextId: nat)

  /** The deposit is transferred only when it passes the minimum deposit and
      is not zero; its source must then exist once the new account `newId`
      is inserted: an existing account, or the new account itself. */
  predicate DepositSourceGiven(accounts: map<nat, Account>, types: map<nat, AccountType>,
                               typeId: nat, deposit: int, sourceId: Option<nat>, newId: nat)
    requires typeId in types
  {
    deposit >= types[typeId].minDeposit && deposit != 0 ==>
      sourceId.Some? && (sourceId.value in accounts || sourceId.value == newId)
  }

  /** Opening an account of type `typeId` for `owner` with `deposit` cents
      taken from `sourceId`. A failed deposit transfer deletes the new
      account again but keeps whatever that transfer committed: an overdraft
      fee on the source stays charged. */
  function Open(accounts: map<nat, Account>, types: map<nat, AccountType>, newId: nat,
                owner: nat, typeId: nat, deposit: int, sourceId: Option<nat>, today: int): (o: Opening)
    requires WellFormed(accounts, types) && typeId in types && newId !in accounts
    requires DepositSourceGiven(accounts, types, typeId, deposit, sourceId, newId)
    ensures o.outcome.ok <==> o.outcome.msg == Success
    ensures deposit < types[typeId].minDeposit ==>
              o == Opening(Outcome(false, DepositTooSmall, Effect(accounts, [])), newId)
    ensures deposit >= types[typeId].minDeposit ==> o.nextId == newId + 1
    ensures deposit >= types[typeId].minDeposit && deposit == 0 ==>
              o.outcome == Outcome(true, Success,
                                   Effect(accounts[newId := InitialAccount(owner, typeId, types[typeId], today)], []))
  {
    var t := types[typeId];
    if deposit < t.minDeposit then
      Opening(Outcome(false, DepositTooSmall, Effect(accounts, [])), newId)
    else
      var a := InitialAccount(owner, typeId, t, today);
      var created := accounts[newId := a];
      if deposit == 0 then
        Opening(Outcome(true, Success, Effect(created, [])), newId + 1)
      else
        CreatedWellFormed(accounts, types, newId, a);
        assert Typed(created, types, sourceId.value);
        var r := Transfer(created, types, sourceId.value, newId, deposit, today);
        if r.ok then
          Opening(r, newId + 1)
        else
          Opening(Outcome(r.ok, r.msg, Effect(r.effect.accounts - {newId}, r.effect.rows)), newId + 1)
  }

  /** The account just inserted, before any deposit, leaves the store well formed. */
  lemma CreatedWellFormed(accounts: map<nat, Account>, types: map<nat, AccountType>, newId: nat, a: Account)
    requires WellFormed(accounts, types) && a.typeId in types
    requires types[a.typeId].category == CertificateOfDeposit ==> a.maturity.Some?
    ensures WellFormed(accounts[newId := a], types)
  {
    var created := accounts[newId := a];
    forall id | id in created ensures Typed(created, types, id) {
      if id != newId { assert Typed(accounts, types, id); }
    }
  }

  /** Opening changes the store only through its rows: a successful opening
      adds the new account, holding its initial balance plus what the rows
      moved into it, a failed one leaves the same accounts, and every other
      balance moves by what the rows move into it. */
  lemma OpenAccounted(accounts: map<nat, Account>, types: map<nat, AccountType>, newId: nat,
                      owner: nat, typeId: nat, deposit: int, sourceId: Option<nat>, today: int)
    requires WellFormed(accounts, types) && typeId in types && newId !in accounts
    requires DepositSourceGiven(accounts, types, typeId, deposit, sourceId, newId)
    ensures var o := Open(accounts, types, newId, owner, typeId, deposit, sourceId, today);
            var e := o.outcome.effect;
            && (o.outcome.ok ==> e.accounts.Keys == accounts.Keys + {newId})
            && (!o.outcome.ok ==> e.accounts.Keys == accounts.Keys)
            && (o.outcome.ok ==>
                  var a := InitialAccount(owner, typeId, types[typeId], today);
                  e.accounts[newId] == a.(balance := a.balance + Net(e.rows, newId)))
            && Accounted(accounts, e.accounts, e.rows)
  {
    var t := types[typeId];
    if deposit >= t.minDeposit {
      var a := InitialAccount(owner, typeId, t, today);
      var created := accounts[newId := a];
      if deposit != 0 {
        var src := sourceId.value;
        CreatedWellFormed(accounts, types, newId, a);
        assert Typed(created, types, src);
        TransferAccounted(created, types, src, newId, deposit, today);
      } else {
        assert Net([], newId) == 0;
      }
    }
  }

  /** After opening, every account's type is in the catalog, every
      certificate of deposit has its maturity day, and the rows name only
      accounts that remain. */
  lemma OpenWellFormed(accounts: map<nat, Account>, types: map<nat, AccountType>, newId: nat,
                       owner: nat, typeId: nat, deposit: int, sourceId: Option<nat>, today: int)
    requires WellFormed(accounts, types) && typeId in types && newId !in accounts
    requires DepositSourceGiven(accounts, types, typeId, deposit, sourceId, newId)
    ensures var e := Open(accounts, types, newId, owner, typeId, deposit, sourceId, today).outcome.effect;
            WellFormed(e.accounts, types) && RefersWithin(e.rows, e.accounts.Keys)
  {
    var t := types[typeId];
    if deposit >= t.minDeposit {
      var a := InitialAccount(owner, typeId, t, today);
      var created := accounts[newId := a];
      CreatedWellFormed(accounts, types, newId, a);
      if deposit != 0 {
        var src := sourceId.value;
        assert Typed(created, types, src);
        var r := Transfer(created, types, src, newId, deposit, today);
        TransferAccounted(created, types, src, newId, deposit, today);
        AccountedKeepsWellFormed(created, r.effect.accounts, types, r.effect.rows);
        if r.ok {
          RefersWithinWiden(r.effect.rows, {src, newId}, r.effect.accounts.Keys);
        } else {
          var left := r.effect.accounts - {newId};
          AccountedKeepsWellFormed(created, left, types, r.effect.rows);
          RefersWithinNarrow(r.effect.rows, {src, newId}, newId);
          RefersWithinWiden(r.effect.rows, {src, newId} - {newId}, left.Keys);
        }
      }
    }
  }

  /** With a non-zero deposit that passes the minimum, opening replies
      exactly what the deposit transfer replied. A funded opening that
      succeeds keeps the new account, credited with the deposit, debits the
      source by it and writes the one funds-transfer row; a deposit refused
      for any reason but a shortfall leaves the accounts and the ledger as
      they were. */
  lemma OpenRepliesAsDeposit(accounts: map<nat, Account>, types: map<nat, AccountType>, newId: nat,
                             owner: nat, typeId: nat, deposit: int, sourceId: Option<nat>, today: int)
    requires WellFormed(accounts, types) && typeId in types && newId !in accounts
    requires DepositSourceGiven(accounts, types, typeId, deposit, sourceId, newId)
    requires deposit >= types[typeId].minDeposit && deposit != 0
    ensures var a := InitialAccount(owner, typeId, types[typeId], today);
            var created := accounts[newId := a];
            var src := sourceId.value;
            var r := Transfer(created, types, src, newId, deposit, today);
            var o := Open(accounts, types, newId, owner, typeId, deposit, sourceId, today);
            && o.outcome.ok == r.ok && o.outcome.msg == r.msg
            && (o.outcome.ok ==>
                  && src in accounts
                  && o.outcome.effect.rows == [Transaction(FundsTransfer, today, Some(src), Some(newId), deposit)]
                  && o.outcome.effect.accounts
                       == accounts[src := accounts[src].(balance := accounts[src].balance - deposit)]
                                  [newId := a.(balance := a.balance + deposit)])
            && (!o.outcome.ok && o.outcome.msg != InsufficientFunds ==>
                  o.outcome.effect == Effect(accounts, []))
  {
    var a := InitialAccount(owner, typeId, types[typeId], today);
    var created := accounts[newId := a];
    var src := sourceId.value;
    CreatedWellFormed(accounts, types, newId, a);
    assert Typed(created, types, src);
    TransferConserves(created, types, src, newId, deposit, today);
    assert created - {newId} == accounts;
  }

  /** Opening with a deposit the source cannot cover: the reply is
      "Insufficient Funds", the new account is gone, and the source has
      still paid its overdraft fee, recorded in one row. */
  lemma FailedDepositKeepsOverdraftFee(accounts: map<nat, Account>, types: map<nat, AccountType>, newId: nat,
                                       owner: nat, typeId: nat, deposit: int, sourceId: nat, today: int)
    requires WellFormed(accounts, types) && typeId in types && newId !in accounts
    requires sourceId in accounts
    requires deposit >= types[typeId].minDeposit && deposit > 0
    requires accounts[sourceId].balance < deposit
    ensures var o := Open(accounts, types, newId, owner, typeId, deposit, Some(sourceId), today);
            var fee := types[accounts[sourceId].typeId].overdraftFee;
            && o.outcome.msg == InsufficientFunds
            && newId !in o.outcome.effect.accounts
            && o.outcome.effect.accounts == accounts[sourceId := accounts[sourceId].(balance := accounts[sourceId].balance - fee)]
            && o.outcome.effect.rows == [Transaction(OverdraftFee(newId), today, Some(sourceId), None, fee)]
  {
    var created := accounts[newId := InitialAccount(owner, typeId, types[typeId], today)];
    assert Typed(accounts, types, sourceId);
    OverdraftCharged(created, types, sourceId, newId, deposit, today);
  }

  /** Opening with a deposit drawn from the very key the new account gets:
      the transfer finds the new account as its source and refuses it as
      the same account (a negative deposit is refused first for its
      amount), the new account is deleted again and nothing else changes,
      but the key is used up. */
  lemma OpenFromNewAccount(accounts: map<nat, Account>, types: map<nat, AccountType>, newId: nat,
                           owner: nat, typeId: nat, deposit: int, today: int)
    requires WellFormed(accounts, types) && typeId in types && newId !in accounts
    requires deposit >= types[typeId].minDeposit && deposit != 0
    ensures var o := Open(accounts, types, newId, owner, typeId, deposit, Some(newId), today);
            && !o.outcome.ok
            && o.outcome.msg == (if deposit < 0 then NonPositiveAmount else SameAccount)
            && o.outcome.effect == Effect(accounts, [])
            && o.nextId == newId + 1
  {
    var a := InitialAccount(owner, typeId, types[typeId], today);
    var created := accounts[newId := a];
    assert created - {newId} == accounts;
  }

  /** A savings account opened without a deposit holds the promotional 50.00. */
  lemma SavingsOpensWithPromotion(accounts: map<nat, Account>, types: map<nat, AccountType>, newId: nat,
                                  owner: nat, typeId: nat, today: int)
    requires WellFormed(accounts, types) && typeId in types && newId !in accounts
    requires types[typeId].category == Savings && types[typeId].minDeposit <= 0
    ensures var o := Open(accounts, types, newId, owner, typeId, 0, None, today);
            o.outcome.ok && o.outcome.effect.rows == [] && o.outcome.effect.accounts[newId].balance == PromotionalCredit
  {
  }

  /** A certificate of deposit cannot be drawn on before it matures, even
      when its balance would allow the transfer. */
  lemma CertificateLockedUntilMaturity(
    accounts: map<nat, Account>, types: map<nat, AccountType>, newId: nat,
    owner: nat, typeId: nat, deposit: int, sourceId: Option<nat>, openedOn: int,
    destId: nat, amount: int, today: int)
    requires WellFormed(accounts, types) && typeId in types && newId !in accounts
    requires DepositSourceGiven(accounts, types, typeId, deposit, sourceId, newId)
    requires types[typeId].category == CertificateOfDeposit
    requires Open(accounts, types, newId, owner, typeId, deposit, sourceId, openedOn).outcome.ok
    requires destId in accounts && amount > 0
    requires today < openedOn + types[typeId].maturityPeriod
    requires var b := Open(accounts, types, newId, owner, typeId, deposit, sourceId, openedOn).outcome.effect.accounts[newId].balance;
             b >= amount && b - amount >= types[typeId].minBalance
    ensures var after := Open(accounts, types, newId, owner, typeId, deposit, sourceId, openedOn).outcome.effect.accounts;
            var o := Transfer(after, types, newId, destId, amount, today);
            o.msg == MaturityNotReached && o.effect == Effect(after, [])
  {
    var after := Open(accounts, types, newId, owner, typeId, deposit, sourceId, openedOn).outcome.effect.accounts;
    OpenWellFormed(accounts, types, newId, owner, typeId, deposit, sourceId, openedOn);
    assert Typed(after, types, newId);
    assert after[newId].maturity == Some(openedOn + types[typeId].maturityPeriod);
  }

  // ---------------------------------------------------------------------
  // Monthly postings

  /** Rounds to whole cents, ties to the even neighbour (the default
      rounding of decimal arithmetic). */
  function RoundHalfEven(x: real): (r: int)
    ensures (r as real) - 0.5 <= x <= (r as real) + 0.5
    ensures (x - (r as real) == 0.5 || (r as real) - x == 0.5) ==> r % 2 == 0
    ensures x == x.Floor as real ==> r == x.Floor
  {
    var f := x.Floor;
    var d := x - f as real;
    if d < 0.5 then f
    else if d > 0.5 then f + 1
    else if f % 2 == 0 then f
    else f + 1
  }

  /** A month's interest on an account, in cents and before rounding: the
      balance times the monthly rate that `monthlyRate` derives from the
      type's yield. */
  function MonthlyInterest(a: Account, t: AccountType, monthlyRate: real -> real): (i: real)
    ensures i == 0.0 <==> a.balance == 0 || monthlyRate(t.apy) == 0.0
  {
    (a.balance as real) * monthlyRate(t.apy)
  }

  /** Paying a month's interest. Nothing happens when the unrounded
      interest is exactly zero; otherwise the rounded interest is credited
      with its own row, even when it rounds to zero. */
  function InterestPosting(accounts: map<nat, Account>, types: map<nat, AccountType>, id: nat,
                           monthlyRate: real -> real, today: int): (e: Effect)
    requires id in accounts && accounts[id].typeId in types
    ensures e.accounts.Keys == accounts.Keys
    ensures e.rows == [] <==> MonthlyInterest(accounts[id], types[accounts[id].typeId], monthlyRate) == 0.0
    ensures e.rows != [] ==>
              e.rows == [Transaction(InterestPaid, today, None, Some(id),
                                     RoundHalfEven(MonthlyInterest(accounts[id], types[accounts[id].typeId], monthlyRate)))]
  {
    var a := accounts[id];
    var interest := MonthlyInterest(accounts[id], types[accounts[id].typeId], monthlyRate);
    if interest == 0.0 then Effect(accounts, [])
    else
      var row := Transaction(InterestPaid, today, None, Some(id), RoundHalfEven(interest));
      NetOfOne(row);
      Effect(accounts[id := a.(balance := a.balance + row.amount)], [row])
  }

  /** Paying interest changes the account only through its row, and the
      row names only that account. */
  lemma InterestAccounted(accounts: map<nat, Account>, types: map<nat, AccountType>, id: nat,
                          monthlyRate: real -> real, today: int)
    requires id in accounts && accounts[id].typeId in types
    ensures var e := InterestPosting(accounts, types, id, monthlyRate, today);
            Accounted(accounts, e.accounts, e.rows) && RefersWithin(e.rows, {id})
  {
    var e := InterestPosting(accounts, types, id, monthlyRate, today);
    if e.rows != [] {
      NetOfOne(e.rows[0]);
    }
  }

  /** Interest is skipped only when the balance or the monthly rate is zero. */
  lemma InterestSkippedOnlyWhenZero(accounts: map<nat, Account>, types: map<nat, AccountType>, id: nat,
                                    monthlyRate: real -> real, today: int)
    requires id in accounts && accounts[id].typeId in types
    ensures InterestPosting(accounts, types, id, monthlyRate, today).rows == [] <==>
              accounts[id].balance == 0 || monthlyRate(types[accounts[id].typeId].apy) == 0.0
  {
  }

  /** Interest under half a cent is not skipped: a row of amount 0 is
      written and the balance does not move. */
  lemma SubCentInterestWritesZeroRow(accounts: map<nat, Account>, types: map<nat, AccountType>, id: nat,
                                     monthlyRate: real -> real, today: int)
    requires id in accounts && accounts[id].typeId in types
    requires var i := MonthlyInterest(accounts[id], types[accounts[id].typeId], monthlyRate); i != 0.0 && -0.5 < i < 0.5
    ensures var e := InterestPosting(accounts, types, id, monthlyRate, today);
            e.rows == [Transaction(InterestPaid, today, None, Some(id), 0)] && e.accounts == accounts
  {
    var e := InterestPosting(accounts, types, id, monthlyRate, today);
    NetOfOne(e.rows[0]);
    assert e.accounts[id] == accounts[id];
  }

  /** 1000.00 at a 12% yield (a monthly rate of 0.01) earns 10.00. */
  lemma InterestOnThousandAtTwelvePercent(accounts: map<nat, Account>, types: map<nat, AccountType>, id: nat,
                                          monthlyRate: real -> real, today: int)
    requires id in accounts && accounts[id].typeId in types
    requires accounts[id].balance == 100000 && monthlyRate(types[accounts[id].typeId].apy) == 0.01
    ensures var e := InterestPosting(accounts, types, id, monthlyRate, today);
            e.rows == [Transaction(InterestPaid, today, None, Some(id), 1000)] &&
            e.accounts[id].balance == 101000
  {
    var e := InterestPosting(accounts, types, id, monthlyRate, today);
    assert MonthlyInterest(accounts[id], types[accounts[id].typeId], monthlyRate) == 1000.0;
    NetOfOne(e.rows[0]);
  }

  /** Charging the maintenance fee: nothing happens when the fee is zero;
      otherwise the fee is debited with its own row, with no lower bound on
      the balance. */
  function MaintenancePosting(accounts: map<nat, Account>, types: map<nat, AccountType>, id: nat,
                              today: int): (e: Effect)
    requires id in accounts && accounts[id].typeId in types
    ensures e.accounts.Keys == accounts.Keys
    ensures e.accounts[id].balance == accounts[id].balance - types[accounts[id].typeId].maintenanceFee
    ensures e.rows == [] <==> types[accounts[id].typeId].maintenanceFee == 0
    ensures e.rows != [] ==>
              e.rows == [Transaction(MaintenanceFee, today, Some(id), None,
                                     types[accounts[id].typeId].maintenanceFee)]
  {
    var a := accounts[id];
    var fee := types[a.typeId].maintenanceFee;
    if fee == 0 then Effect(accounts, [])
    else
      var row := Transaction(MaintenanceFee, today, Some(id), None, fee);
      NetOfOne(row);
      Effect(accounts[id := a.(balance := a.balance - fee)], [row])
  }

  /** Charging the fee changes the account only through its row, and the
      row names only that account. */
  lemma MaintenanceAccounted(accounts: map<nat, Account>, types: map<nat, AccountType>, id: nat,
                             today: int)
    requires id in accounts && accounts[id].typeId in types
    ensures var e := MaintenancePosting(accounts, types, id, today);
            Accounted(accounts, e.accounts, e.rows) && RefersWithin(e.rows, {id})
  {
    var e := MaintenancePosting(accounts, types, id, today);
    if e.rows != [] {
      NetOfOne(e.rows[0]);
    }
  }

  // ---------------------------------------------------------------------
  // Keeping the ledger invariant

  /** Posting rows keeps "balance = opening balance + what the ledger moved in". */
  lemma PostingKeepsBalances(before: map<nat, Account>, after: map<nat, Account>,
                             ledger: seq<Transaction>, rows: seq<Transaction>, opening: map<nat, int>)
    requires forall id :: id in before ==> id in opening && before[id].balance == opening[id] + Net(ledger, id)
    requires after.Keys <= before.Keys && Accounted(before, after, rows)
    ensures forall id :: id in after ==> id in opening && after[id].balance == opening[id] + Net(ledger + rows, id)
  {
    forall id | id in after
      ensures id in opening && after[id].balance == opening[id] + Net(ledger + rows, id)
    {
      NetAppend(ledger, rows, id);
    }
  }

  lemma RefersWithinAppend(a: seq<Transaction>, b: seq<Transaction>, ids: set<nat>)
    requires RefersWithin(a, ids) && RefersWithin(b, ids)
    ensures RefersWithin(a + b, ids)
  {
    forall i | 0 <= i < |a + b|
      ensures ((a + b)[i].source.Some? ==> (a + b)[i].source.value in ids) &&
              ((a + b)[i].dest.Some? ==> (a + b)[i].dest.value in ids)
    {
      if i < |a| { assert (a + b)[i] == a[i]; } else { assert (a + b)[i] == b[i - |a|]; }
    }
  }

  lemma RefersWithinWiden(rows: seq<Transaction>, ids: set<nat>, more: set<nat>)
    requires RefersWithin(rows, ids) && ids <= more
    ensures RefersWithin(rows, more)
  {
  }

  /** The store's integrity: foreign keys hold, keys are below `nextId`,
      type names are unique and every balance is its opening balance plus
      the net of the ledger rows that name the account. */
  ghost predicate Consistent(accounts: map<nat, Account>, types: map<nat, AccountType>,
                             ledger: seq<Transaction>, nextId: nat, opening: map<nat, int>)
  {
    && WellFormed(accounts, types)
    && UniqueNames(types)
    && (forall id :: id in accounts ==> id < nextId)
    && RefersWithin(ledger, accounts.Keys)
    && (forall id :: id in accounts ==> id in opening && accounts[id].balance == opening[id] + Net(ledger, id))
  }

  /** Committing a step whose balances move by exactly its rows, and whose
      rows name only existing accounts, keeps the store consistent. */
  lemma CommitKeepsConsistent(accounts: map<nat, Account>, types: map<nat, AccountType>,
                              ledger: seq<Transaction>, nextId: nat, opening: map<nat, int>, e: Effect)
    requires Consistent(accounts, types, ledger, nextId, opening)
    requires e.accounts.Keys == accounts.Keys && Accounted(accounts, e.accounts, e.rows)
    requires RefersWithin(e.rows, accounts.Keys)
    ensures Consistent(e.accounts, types, ledger + e.rows, nextId, opening)
  {
    AccountedKeepsWellFormed(accounts, e.accounts, types, e.rows);
    PostingKeepsBalances(accounts, e.accounts, ledger, e.rows, opening);
    RefersWithinAppend(ledger, e.rows, accounts.Keys);
  }

  /** Inserting an account under the next key, with its balance as its
      opening balance, keeps the store consistent: no row names it yet. */
  lemma CreateKeepsConsistent(accounts: map<nat, Account>, types: map<nat, AccountType>,
                              ledger: seq<Transaction>, nextId: nat, opening: map<nat, int>, a: Account)
    requires Consistent(accounts, types, ledger, nextId, opening)
    requires a.typeId in types && (types[a.typeId].category == CertificateOfDeposit ==> a.maturity.Some?)
    ensures Consistent(accounts[nextId := a], types, ledger, nextId + 1, opening[nextId := a.balance])
  {
    assert nextId !in accounts;
    NetUnreferenced(ledger, nextId);
    CreatedWellFormed(accounts, types, nextId, a);
    RefersWithinWiden(ledger, accounts.Keys, accounts[nextId := a].Keys);
  }

  /** Deleting an account that no row names keeps the store consistent. */
  lemma DeleteKeepsConsistent(accounts: map<nat, Account>, types: map<nat, AccountType>,
                              ledger: seq<Transaction>, nextId: nat, opening: map<nat, int>, id: nat)
    requires Consistent(accounts, types, ledger, nextId, opening)
    requires Unreferenced(ledger, id)
    ensures Consistent(accounts - {id}, types, ledger, nextId, opening)
  {
    RefersWithinNarrow(ledger, accounts.Keys, id);
    var left := accounts - {id};
    forall k | k in left ensures Typed(left, types, k) {
      assert Typed(accounts, types, k);
    }
  }

  // ---------------------------------------------------------------------
  // The store

  /** The bank's store: accounts by key, the catalog of account types and
      the append-only ledger. `nextId` is the key the next account gets;
      `opening` remembers each account's balance when it was created. */
  class Bank {
    var accounts: map<nat, Account>
    var types: map<nat, AccountType>
    var ledger: seq<Transaction>
    var nextId: nat
    ghost var opening: map<nat, int>

    /** The store's integrity, over the current fields. */
    ghost predicate Valid()
      reads this
    {
      Consistent(accounts, types, ledger, nextId, opening)
    }

    constructor (catalog: map<nat, AccountType>)
      requires UniqueNames(catalog)
      ensures Valid()
      ensures accounts == map[] && types == catalog && ledger == [] && nextId == 1
      ensures opening == map[]
    {
      accounts := map[];
      types := catalog;
      ledger := [];
      nextId := 1;
      opening := map[];
    }

    /** Commits one step: the new accounts and the appended rows. */
    method Commit(e: Effect)
      requires Valid()
      requires e.accounts.Keys == accounts.Keys && Accounted(accounts, e.accounts, e.rows)
      requires RefersWithin(e.rows, accounts.Keys)
      modifies this
      ensures Valid()
      ensures accounts == e.accounts && ledger == old(ledger) + e.rows
      ensures types == old(types) && nextId == old(nextId) && opening == old(opening)
    {
      CommitKeepsConsistent(accounts, types, ledger, nextId, opening, e);
      accounts := e.accounts;
      ledger := ledger + e.rows;
    }

    /** Transfers `amount` cents from `sourceId` to `destId`. */
    method TransferFunds(sourceId: nat, destId: nat, amount: int, today: int) returns (ok: bool, msg: Message)
      requires Valid() && sourceId in accounts && destId in accounts
      modifies this
      ensures Valid()
      ensures types == old(types) && nextId == old(nextId) && opening == old(opening)
      ensures var o := Transfer(old(accounts), types, sourceId, destId, amount, today);
              ok == o.ok && msg == o.msg &&
              accounts == o.effect.accounts && ledger == old(ledger) + o.effect.rows
    {
      assert Typed(accounts, types, sourceId);
      var source := accounts[sourceId];
      var t := types[source.typeId];
      if amount <= 0 {
        return false, NonPositiveAmount;
      }
      if sourceId == destId {
        return false, SameAccount;
      }
      if source.balance < amount {
        ChargeOverdraft(sourceId, destId, today);
        return false, InsufficientFunds;
      }
      if source.balance - amount < t.minBalance {
        return false, InsufficientMinimumBalance;
      }
      if t.category == CertificateOfDeposit && today < source.maturity.value {
        return false, MaturityNotReached;
      }
      MoveFunds(sourceId, destId, amount, today);
      ok, msg := true, Success;
    }

    /** Debits the source's overdraft fee, with its row, in one database
        transaction. */
    method ChargeOverdraft(sourceId: nat, destId: nat, today: int)
      requires Valid() && sourceId in accounts
      modifies this
      ensures Valid()
      ensures types == old(types) && nextId == old(nextId) && opening == old(opening)
      ensures var e := OverdraftCharge(old(accounts), types, sourceId, destId, today);
              accounts == e.accounts && ledger == old(ledger) + e.rows
    {
      assert Typed(accounts, types, sourceId);
      var source := accounts[sourceId];
      var fee := types[source.typeId].overdraftFee;
      var row := Transaction(OverdraftFee(destId), today, Some(sourceId), None, fee);
      var e := Effect(accounts[sourceId := source.(balance := source.balance - fee)], [row]);
      assert e == OverdraftCharge(accounts, types, sourceId, destId, today);
      DebitAccounted(accounts, sourceId, row);
      Commit(e);
    }

    /** Moves `amount` cents from `sourceId` to `destId`, with one row, in
        one database transaction. */
    method MoveFunds(sourceId: nat, destId: nat, amount: int, today: int)
      requires Valid() && sourceId in accounts && destId in accounts && sourceId != destId
      modifies this
      ensures Valid()
      ensures types == old(types) && nextId == old(nextId) && opening == old(opening)
      ensures var e := FundsMove(old(accounts), sourceId, destId, amount, today);
              accounts == e.accounts && ledger == old(ledger) + e.rows
    {
      var source := accounts[sourceId];
      var dest := accounts[destId];
      var row := Transaction(FundsTransfer, today, Some(sourceId), Some(destId), amount);
      var e := Effect(accounts[sourceId := source.(balance := source.balance - amount)]
                              [destId := dest.(balance := dest.balance + amount)], [row]);
      assert e == FundsMove(accounts, sourceId, destId, amount, today);
      MoveAccounted(accounts, sourceId, destId, row);
      Commit(e);
    }

    /** Opens an account of type `typeId` for `owner`, funded with
        `initialDeposit` cents from `sourceId` when the deposit is not zero. */
    method OpenAccount(owner: nat, typeId: nat, initialDeposit: int, sourceId: Option<nat>, today: int)
      returns (ok: bool, msg: Message)
      requires Valid() && typeId in types
      requires DepositSourceGiven(accounts, types, typeId, initialDeposit, sourceId, nextId)
      modifies this
      ensures Valid()
      ensures types == old(types)
      ensures initialDeposit < types[typeId].minDeposit ==> opening == old(opening)
      ensures initialDeposit >= types[typeId].minDeposit ==>
                opening == old(opening)[old(nextId) := InitialAccount(owner, typeId, types[typeId], today).balance]
      ensures var o := Open(old(accounts), types, old(nextId), owner, typeId, initialDeposit, sourceId, today);
              ok == o.outcome.ok && msg == o.outcome.msg && nextId == o.nextId &&
              accounts == o.outcome.effect.accounts && ledger == old(ledger) + o.outcome.effect.rows
    {
      ghost var o := Open(accounts, types, nextId, owner, typeId, initialDeposit, sourceId, today);
      ghost var before := ledger;
      var t := types[typeId];
      if initialDeposit < t.minDeposit {
        return false, DepositTooSmall;
      }
      // one database transaction in bank/utils.py: creation, deposit and deletion
      // are steps that cannot fail here, so their sequence is its effect
      var id := nextId;
      var account := NewAccount(owner, typeId);
      if t.category == CertificateOfDeposit {
        account := account.(maturity := Some(today + t.maturityPeriod));
      } else if t.category == Savings {
        account := account.(balance := PromotionalCredit);
      }
      assert account == InitialAccount(owner, typeId, t, today);
      UnreferencedOutside(ledger, accounts.Keys, id);
      CreateAccount(id, account);
      ghost var created := accounts;
      if initialDeposit != 0 {
        ghost var r := Transfer(created, types, sourceId.value, id, initialDeposit, today);
        TransferAccounted(created, types, sourceId.value, id, initialDeposit, today);
        ok, msg := TransferFunds(sourceId.value, id, initialDeposit, today);
        if !ok {
          UnreferencedAppend(before, r.effect.rows, id);
          DeleteAccount(id);
          assert o.outcome == Outcome(r.ok, r.msg, Effect(r.effect.accounts - {id}, r.effect.rows));
        } else {
          assert o.outcome == r;
        }
        return;
      }
      assert o.outcome == Outcome(true, Success, Effect(created, []));
      ok, msg := true, Success;
    }

    /** Inserts a new account under the next key. */
    method CreateAccount(id: nat, account: Account)
      requires Valid() && id == nextId
      requires account.typeId in types
      requires types[account.typeId].category == CertificateOfDeposit ==> account.maturity.Some?
      modifies this
      ensures Valid()
      ensures accounts == old(accounts)[id := account] && nextId == id + 1
      ensures ledger == old(ledger) && types == old(types)
      ensures opening == old(opening)[id := account.balance]
    {
      CreateKeepsConsistent(accounts, types, ledger, nextId, opening, account);
      accounts := accounts[id := account];
      nextId := nextId + 1;
      opening := opening[id := account.balance];
    }

    /** Deletes an account; the ledger rows naming it would go with it, and
        there are none. */
    method DeleteAccount(id: nat)
      requires Valid()
      requires Unreferenced(ledger, id)
      modifies this
      ensures Valid()
      ensures accounts == old(accounts) - {id} && ledger == Cascade(old(ledger), id)
      ensures ledger == old(ledger)
      ensures types == old(types) && nextId == old(nextId) && opening == old(opening)
    {
      DeleteKeepsConsistent(accounts, types, ledger, nextId, opening, id);
      accounts := accounts - {id};
      ledger := Cascade(ledger, id);
    }

    /** Pays a month's interest on account `id`. */
    method PayMonthlyInterest(id: nat, monthlyRate: real -> real, today: int)
      requires Valid() && id in accounts
      modifies this
      ensures Valid()
      ensures types == old(types) && nextId == old(nextId) && opening == old(opening)
      ensures var e := InterestPosting(old(accounts), types, id, monthlyRate, today);
              accounts == e.accounts && ledger == old(ledger) + e.rows
    {
      assert Typed(accounts, types, id);
      ghost var e0 := InterestPosting(accounts, types, id, monthlyRate, today);
      InterestAccounted(accounts, types, id, monthlyRate, today);
      RefersWithinWiden(e0.rows, {id}, accounts.Keys);
      var account := accounts[id];
      var interest := MonthlyInterest(account, types[account.typeId], monthlyRate);
      if interest == 0.0 {
        return;
      }
      // the credit and its row are committed together
      var row := Transaction(InterestPaid, today, None, Some(id), RoundHalfEven(interest));
      var e := Effect(accounts[id := account.(balance := account.balance + row.amount)], [row]);
      assert e == e0;
      Commit(e);
    }

    /** Charges a month's maintenance fee on account `id`. */
    method ChargeMonthlyMaintenance(id: nat, today: int)
      requires Valid() && id in accounts
      modifies this
      ensures Valid()
      ensures types == old(types) && nextId == old(nextId) && opening == old(opening)
      ensures var e := MaintenancePosting(old(accounts), types, id, today);
              accounts == e.accounts && ledger == old(ledger) + e.rows
    {
      assert Typed(accounts, types, id);
      ghost var e0 := MaintenancePosting(accounts, types, id, today);
      MaintenanceAccounted(accounts, types, id, today);
      RefersWithinWiden(e0.rows, {id}, accounts.Keys);
      var account := accounts[id];
      var fee := types[account.typeId].maintenanceFee;
      if fee == 0 {
        return;
      }
      // the debit and its row are committed together
      var row := Transaction(MaintenanceFee, today, Some(id), None, fee);
      var e := Effect(accounts[id := account.(balance := account.balance - fee)], [row]);
      assert e == e0;
      Commit(e);
    }
  }

}
