/** The bank's data model: account types, accounts and ledger rows, the
    category codes of an account type, the limits of the money columns and
    the zero-padded numbers under which accounts and transactions are shown.

    Money is held in integer cents (the columns keep two fractional digits),
    dates are day numbers and identifiers are the store's integer keys. */
module Models {

  datatype Option<T> = None | Some(value: T)

  // ---------------------------------------------------------------------
  // Account type categories

  /** The four categories an account type may belong to. */
  datatype Category = Checking | Savings | MoneyMarket | CertificateOfDeposit

  /** The integer code the store keeps for a category. */
  function CategoryCode(c: Category): (code: int)
    ensures 0 <= code <= 3
  {
    match c
    case Checking => 0
    case Savings => 1
    case MoneyMarket => 2
    case CertificateOfDeposit => 3
  }

  /** The category a stored code stands for; only the four listed codes are choices. */
  function CategoryFromCode(code: int): (r: Option<Category>)
    ensures r.Some? <==> 0 <= code <= 3
    ensures r.Some? ==> CategoryCode(r.value) == code
  {
    if code == 0 then Some(Checking)
    else if code == 1 then Some(Savings)
    else if code == 2 then Some(MoneyMarket)
    else if code == 3 then Some(CertificateOfDeposit)
    else None
  }

  lemma CategoryCodeRoundTrip(c: Category)
    ensures CategoryFromCode(CategoryCode(c)) == Some(c)
  {
  }

  // ---------------------------------------------------------------------
  // Money

  /** The money columns hold at most 28 decimal digits, two of them after the point. */
  const MoneyDigits: nat := 28

  function Pow10(k: nat): (p: nat)
    ensures p >= 1
  {
    if k == 0 then 1 else 10 * Pow10(k - 1)
  }

  /** An amount in cents that fits a money column. */
  predicate IsMoney(cents: int)
  {
    -(Pow10(MoneyDigits) as int) < cents < Pow10(MoneyDigits)
  }

  function Abs(x: int): nat
  {
    if x < 0 then -x else x
  }

  /** An amount fits a money column exactly when its cents need at most 28 digits. */
  lemma MoneyFitsColumn(cents: int)
    ensures IsMoney(cents) <==> |DecimalString(Abs(cents))| <= MoneyDigits
  {
    DigitsBelowPower(Abs(cents), MoneyDigits);
  }

  // ---------------------------------------------------------------------
  // Records

  /** A catalog entry: product rules shared by every account of the type. */
  datatype AccountType = AccountType(
    name: string,
    category: Category,
    minDeposit: int,
    minBalance: int,
    maintenanceFee: int,
    overdraftFee: int,
    apy: real,
    maturityPeriod: int)    // in days

  /** An account type as declared with only its required fields: the yield
      and the maturity period take their defaults. */
  function NewAccountType(name: string, category: Category, minDeposit: int, minBalance: int,
                          maintenanceFee: int, overdraftFee: int): (t: AccountType)
    ensures t.apy == 0.0 && t.maturityPeriod == 0
    ensures t.name == name && t.category == category
    ensures t.minDeposit == minDeposit && t.minBalance == minBalance
    ensures t.maintenanceFee == maintenanceFee && t.overdraftFee == overdraftFee
  {
    AccountType(name, category, minDeposit, minBalance, maintenanceFee, overdraftFee, 0.0, 0)
  }

  /** Two catalog entries that share a name. */
  predicate SameName(types: map<nat, AccountType>, i: nat, j: nat)
  {
    i in types && j in types && types[i].name == types[j].name
  }

  /** No two catalog entries share a name. */
  predicate UniqueNames(types: map<nat, AccountType>)
  {
    forall i, j {:trigger SameName(types, i, j)} :: i in types && j in types && SameName(types, i, j) ==> i == j
  }

  /** An account: its owner (a user key), its type (a catalog key), its
      balance and, for certificates of deposit, the day it matures. */
  datatype Account = Account(owner: nat, typeId: nat, balance: int, maturity: Option<int>)

  /** An account as created with only owner and type given. */
  function NewAccount(owner: nat, typeId: nat): (a: Account)
    ensures a.balance == 0 && a.maturity == None
    ensures a.owner == owner && a.typeId == typeId
  {
    Account(owner, typeId, 0, None)
  }

  /** What a ledger row records; `MemoText` gives the description stored with it. */
  datatype Memo = FundsTransfer | OverdraftFee(destId: nat) | InterestPaid | MaintenanceFee

  /** A ledger row; either end may be absent (money from or to outside the bank). */
  datatype Transaction = Transaction(
    description: Memo,
    date: int,
    source: Option<nat>,
    dest: Option<nat>,
    amount: int)

  // ---------------------------------------------------------------------
  // Account and transaction numbers

  predicate IsDigit(c: char)
  {
    '0' <= c <= '9'
  }

  predicate AllDigits(s: string)
  {
    forall i :: 0 <= i < |s| ==> IsDigit(s[i])
  }

  function DigitChar(d: nat): (c: char)
    requires d < 10
    ensures IsDigit(c)
  {
    ['0', '1', '2', '3', '4', '5', '6', '7', '8', '9'][d]
  }

  function DigitValue(c: char): (d: nat)
    requires IsDigit(c)
    ensures d < 10
  {
    (c as int - '0' as int) as nat
  }

  /** The decimal representation of a natural number, without leading zeros. */
  function DecimalString(n: nat): (s: string)
    ensures |s| >= 1 && AllDigits(s)
    ensures |s| > 1 ==> s[0] != '0'
  {
    if n < 10 then [DigitChar(n)] else DecimalString(n / 10) + [DigitChar(n % 10)]
  }

  /** The value of a string of decimal digits; leading zeros are allowed. */
  function ParseDecimal(s: string): nat
    requires AllDigits(s)
  {
    if s == [] then 0 else 10 * ParseDecimal(s[..|s| - 1]) + DigitValue(s[|s| - 1])
  }

  function Zeros(k: nat): (z: string)
    ensures |z| == k && AllDigits(z)
    ensures forall i :: 0 <= i < k ==> z[i] == '0'
  {
    if k == 0 then [] else Zeros(k - 1) + ['0']
  }

  /** Python's `str.zfill` on a string of unsigned digits: pads it on the
      left with zeros up to the given width; a longer string is returned
      unchanged. (A leading sign, which `zfill` keeps in front, cannot occur
      in such a string.) */
  function ZeroFill(s: string, width: nat): (r: string)
    requires AllDigits(s)
    ensures |r| == if |s| < width then width else |s|
    ensures r[|r| - |s|..] == s
    ensures forall i :: 0 <= i < |r| - |s| ==> r[i] == '0'
  {
    if |s| < width then Zeros(width - |s|) + s else s
  }

  /** The shown width of an account or transaction number. */
  const NumberWidth: nat := 10

  /** The number under which an account or a transaction is shown: its key
      in decimal, padded with zeros to ten characters. */
  function PaddedNumber(id: nat): (s: string)
    ensures AllDigits(s) && |s| >= NumberWidth
    ensures id < Pow10(NumberWidth) ==> |s| == NumberWidth
  {
    DigitsBelowPower(id, NumberWidth);
    ZeroFill(DecimalString(id), NumberWidth)
  }

  /** The shown number reads back as the key. */
  lemma PaddedNumberParses(id: nat)
    ensures ParseDecimal(PaddedNumber(id)) == id
  {
    ParseZeroFilled(DecimalString(id), NumberWidth);
    ParseDecimalRoundTrip(id);
  }

  /** Padding with zeros does not change the value read. */
  lemma ParseZeroFilled(d: string, width: nat)
    requires AllDigits(d)
    ensures AllDigits(ZeroFill(d, width))
    ensures ParseDecimal(ZeroFill(d, width)) == ParseDecimal(d)
  {
    var r := ZeroFill(d, width);
    var z := r[..|r| - |d|];
    assert r == z + d;
    ParseLeadingZeros(z, d);
  }

  /** A shown number belongs to exactly one key. */
  lemma PaddedNumberInjective(a: nat, b: nat)
    requires PaddedNumber(a) == PaddedNumber(b)
    ensures a == b
  {
    PaddedNumberParses(a);
    PaddedNumberParses(b);
  }

  /** The stored description of a row. An overdraft fee names the account
      the failed transfer was to, by its shown number. */
  function MemoText(m: Memo): (s: string)
    ensures m.OverdraftFee? <==> OverdraftPrefix <= s
    ensures m.OverdraftFee? ==>
              && |s| == |OverdraftPrefix| + |PaddedNumber(m.destId)| + 1
              && s[|OverdraftPrefix|..|s| - 1] == PaddedNumber(m.destId)
  {
    match m
    case FundsTransfer => "Electronic Funds Transfer"
    case OverdraftFee(destId) => OverdraftPrefix + PaddedNumber(destId) + ")"
    case InterestPaid => "Interest Paid"
    case MaintenanceFee => "Maintenance Fee"
  }

  const OverdraftPrefix: string := "Overdraft Fee (attempted deposit to account no. "

  /** Different memos are stored as different descriptions, so the
      description alone tells what a row was for, and an overdraft fee row
      tells which account the attempted deposit was to. */
  lemma MemoTextInjective(m: Memo, n: Memo)
    requires MemoText(m) == MemoText(n)
    ensures m == n
  {
    var s := MemoText(m);
    if m.OverdraftFee? && n.OverdraftFee? {
      var k := |OverdraftPrefix|;
      assert s[k..|s| - 1] == PaddedNumber(m.destId);
      assert MemoText(n)[k..|s| - 1] == PaddedNumber(n.destId);
      PaddedNumberInjective(m.destId, n.destId);
    }
  }

  // ---------------------------------------------------------------------
  // Facts about decimal strings

  lemma {:induction false} ParseDecimalRoundTrip(n: nat)
    ensures ParseDecimal(DecimalString(n)) == n
  {
    if n >= 10 {
      var s := DecimalString(n);
      assert s[..|s| - 1] == DecimalString(n / 10);
      ParseDecimalRoundTrip(n / 10);
    }
  }

  lemma {:induction false} ParseLeadingZeros(z: string, s: string)
    requires AllDigits(z) && AllDigits(s)
    requires forall i :: 0 <= i < |z| ==> z[i] == '0'
    ensures AllDigits(z + s)
    ensures ParseDecimal(z + s) == ParseDecimal(s)
  {
    assert AllDigits(z + s) by {
      forall i | 0 <= i < |z + s| ensures IsDigit((z + s)[i]) {
        if i < |z| { assert (z + s)[i] == z[i]; } else { assert (z + s)[i] == s[i - |z|]; }
      }
    }
    if s == [] {
      assert z + s == z;
      ParseZeros(z);
    } else {
      var t := z + s;
      assert t[..|t| - 1] == z + s[..|s| - 1];
      ParseLeadingZeros(z, s[..|s| - 1]);
    }
  }

  lemma {:induction false} ParseZeros(z: string)
    requires AllDigits(z)
    requires forall i :: 0 <= i < |z| ==> z[i] == '0'
    ensures ParseDecimal(z) == 0
  {
    if z != [] {
      ParseZeros(z[..|z| - 1]);
    }
  }

  /** A number has at most k digits exactly when it is below 10^k. */
  lemma {:induction false} DigitsBelowPower(n: nat, k: nat)
    requires k >= 1
    ensures |DecimalString(n)| <= k <==> n < Pow10(k)
  {
    if n < 10 {
      PowMonotone(1, k);
    } else if k == 1 {
    } else {
      DigitsBelowPower(n / 10, k - 1);
      assert n / 10 < Pow10(k - 1) <==> n < 10 * Pow10(k - 1);
    }
  }

  lemma {:induction false} PowMonotone(j: nat, k: nat)
    requires j <= k
    ensures Pow10(j) <= Pow10(k)
  {
    if j < k {
      PowMonotone(j, k - 1);
    }
  }
}
