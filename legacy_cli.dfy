/** The terminal front end: accounts with integer ids kept in a JSON
    storage object, a balance computed over every stored transaction, and
    the menus that create and edit accounts and record transactions. */
module LegacyCli {
  import opened Wrappers
  import opened Decimal
  import opened Money
  import opened Accounts
  import opened Transactions
  import opened BalanceWorker

  // ---------------------------------------------------------------------
  // Money text
  // ---------------------------------------------------------------------

  /** `parseCurrency`: the same pattern and tenths rule as the web
      application's loose parser, with `null` for text without a digit. */
  function ParseCurrency(input: string): (r: Option<int>)
    ensures r.None? <==> !HasDigit(input)
    ensures r.Some? ==> ParseInput(input) == Ok(r.value)
  {
    match MatchInput(input)
    case None => None
    case Some(m) => Some(Cents(m))
  }

  /** The terminal's parser and the web application's loose parser read
      every text alike. */
  lemma ParseCurrencyAgrees(input: string)
    ensures ParseCurrency(input) == match ParseInput(input) case Ok(v) => Some(v) case Err(_) => None
  {
  }

  /** `formatCurrency`: `value.toString()` split by `/(\d*)(\d{2})/` and
      joined with a comma. `integer ?? 0` never applies, since the first
      group is "" rather than missing, and a failed match throws when it is
      destructured. */
  function FormatCurrency(value: int): (r: Outcome<string>)
  {
    match MatchCents(IntToString(value))
    case None => Err(TypeError)
    case Some((integer, decimal)) => Ok(integer + "," + decimal)
  }

  // ---------------------------------------------------------------------
  // Data
  // ---------------------------------------------------------------------

  datatype LegacyAccount = LegacyAccount(id: int, name: string, kind: AccountType, initialBalance: int)

  /** A transfer carries no date; an income or expense is stamped when it
      is recorded. */
  datatype LegacyTransaction =
    | LegacyTransfer(fromId: int, toId: int, value: int)
    | LegacyExternal(kind: ExternalTransactionType, date: int, accountId: int, value: int)

  /** The position of the first account with the given id. */
  function IndexOfAccount(accounts: seq<LegacyAccount>, id: int): (r: Option<nat>)
    ensures r.Some? ==> && r.value < |accounts| && accounts[r.value].id == id
                        && forall k :: 0 <= k < r.value ==> accounts[k].id != id
    ensures r.None? ==> forall k :: 0 <= k < |accounts| ==> accounts[k].id != id
  {
    if accounts == [] then None
    else if accounts[0].id == id then Some(0)
    else match IndexOfAccount(accounts[1..], id)
      case None => None
      case Some(k) => Some(k + 1)
  }

  /** `getAccountById`: the first account with that id, or `null`. */
  function AccountById(accounts: seq<LegacyAccount>, id: int): (r: Option<LegacyAccount>)
    ensures r.Some? <==> exists k :: 0 <= k < |accounts| && accounts[k].id == id
    ensures r.Some? ==> r.value.id == id && r.value in accounts
    ensures r.Some? ==> exists k :: 0 <= k < |accounts| && accounts[k] == r.value
                                   && forall j :: 0 <= j < k ==> accounts[j].id != id
  {
    match IndexOfAccount(accounts, id)
    case None => None
    case Some(k) => Some(accounts[k])
  }

  /** The accounts the menus create are numbered by position. */
  predicate IdsAreIndices(accounts: seq<LegacyAccount>)
  {
    forall i :: 0 <= i < |accounts| ==> accounts[i].id == i
  }

  /** The choices offered as the destination of a transfer: the ids of
      every account other than the source. */
  function TransferDestinations(accounts: seq<LegacyAccount>, from: int): (r: seq<int>)
    ensures forall x :: x in r <==> x != from && exists k :: 0 <= k < |accounts| && accounts[k].id == x
  {
    if accounts == [] then []
    else
      var rest := TransferDestinations(accounts[1..], from);
      assert forall k :: 0 < k < |accounts| ==> accounts[k] == accounts[1..][k - 1];
      if accounts[0].id != from then [accounts[0].id] + rest else rest
  }

  // ---------------------------------------------------------------------
  // getBalance
  // ---------------------------------------------------------------------

  /** What one transaction adds to an account's balance. The account type
      is not consulted. */
  function LegacyContribution(t: LegacyTransaction, accountId: int): int
  {
    match t
    case LegacyExternal(kind, _, onAccount, value) =>
      if onAccount != accountId then 0
      else (match kind case Receita => value case Despesa => -value)
    case LegacyTransfer(fromId, toId, value) =>
      if fromId == accountId then -value
      else if toId == accountId then value
      else 0
  }

  function LegacyNet(ts: seq<LegacyTransaction>, accountId: int): int
  {
    if ts == [] then 0 else LegacyNet(ts[..|ts| - 1], accountId) + LegacyContribution(ts[|ts| - 1], accountId)
  }

  /** The balance `getBalance` returns; `None` where the missing account
      makes it throw. */
  function LegacyBalance(accounts: seq<LegacyAccount>, ts: seq<LegacyTransaction>, accountId: int)
    : (r: Option<int>)
    ensures r.None? <==> forall k :: 0 <= k < |accounts| ==> accounts[k].id != accountId
    ensures r.Some? ==> exists k :: 0 <= k < |accounts| && accounts[k].id == accountId
                                   && r.value == accounts[k].initialBalance + LegacyNet(ts, accountId)
                                   && forall j :: 0 <= j < k ==> accounts[j].id != accountId
  {
    match AccountById(accounts, accountId)
    case None => None
    case Some(account) => Some(account.initialBalance + LegacyNet(ts, accountId))
  }

  /** Menu 2 can show the balance of an account: `getBalance` finds the
      account, and the balance is outside -9..9, where `formatCurrency`
      throws (`FormatCurrencyShape`). */
  predicate BalanceFormats(accounts: seq<LegacyAccount>, ts: seq<LegacyTransaction>, accountId: int)
  {
    match LegacyBalance(accounts, ts, accountId)
    case None => false
    case Some(balance) => !(-9 <= balance <= 9)
  }

  /** The balance text is shown exactly when `getBalance` and
      `formatCurrency` both return. */
  lemma BalanceShown(accounts: seq<LegacyAccount>, ts: seq<LegacyTransaction>, accountId: int,
                     balance: Option<int>, shown: Outcome<string>)
    requires balance == LegacyBalance(accounts, ts, accountId)
    requires shown == if balance.Some? then FormatCurrency(balance.value) else Err(TypeError)
    ensures BalanceFormats(accounts, ts, accountId) <==> shown.Ok?
  {
    if balance.Some? {
      FormatCurrencyShape(balance.value);
    }
  }

  /** Menu 2 prints the balance of every account in its choice list. */
  predicate ListingFormats(accounts: seq<LegacyAccount>, ts: seq<LegacyTransaction>)
  {
    forall k :: 0 <= k < |accounts| ==> BalanceFormats(accounts, ts, accounts[k].id)
  }

  // ---------------------------------------------------------------------
  // The storage object and the menus
  // ---------------------------------------------------------------------

  /** The `Storage` instance the menus share; `load` and `save` are file
      I/O and are not part of this model. */
  class Storage {
    var accounts: seq<LegacyAccount>
    var transactions: seq<LegacyTransaction>

    /** The state after `load`. */
    constructor (loadedAccounts: seq<LegacyAccount>, loadedTransactions: seq<LegacyTransaction>)
      ensures accounts == loadedAccounts && transactions == loadedTransactions
    {
      accounts := loadedAccounts;
      transactions := loadedTransactions;
    }

    /** `getBalance(accountId, storage)`. */
    method GetBalance(accountId: int) returns (balance: Option<int>)
      ensures balance == LegacyBalance(accounts, transactions, accountId)
    {
      var account := AccountById(accounts, accountId);
      if account.None? {
        return None;
      }
      var total := account.value.initialBalance;
      for i := 0 to |transactions|
        invariant total == account.value.initialBalance + LegacyNet(transactions[..i], accountId)
      {
        var t := transactions[i];
        assert transactions[..i + 1] == transactions[..i] + [t];
        match t {
          case LegacyExternal(kind, _, onAccount, value) =>
            if onAccount == accountId {
              match kind {
                case Receita => total := total + value;
                case Despesa => total := total - value;
              }
            }
          case LegacyTransfer(fromId, toId, value) =>
            if fromId == accountId {
              total := total - value;
            } else if toId == accountId {
              total := total + value;
            }
        }
      }
      assert transactions[..|transactions|] == transactions;
      return Some(total);
    }

    /** Menu 1, "Nova Conta": the prompt accepts only text `parseCurrency`
      reads; the new account's id is the number of accounts so far. */
    method CreateAccount(name: string, kind: AccountType, initialBalanceRaw: string)
      requires ParseCurrency(initialBalanceRaw).Some?
      modifies this
      ensures accounts == old(accounts)
                          + [LegacyAccount(|old(accounts)|, name, kind, ParseCurrency(initialBalanceRaw).value)]
      ensures transactions == old(transactions)
      ensures IdsAreIndices(old(accounts)) ==> IdsAreIndices(accounts)
    {
      var account := LegacyAccount(|accounts|, name, kind, ParseCurrency(initialBalanceRaw).value);
      accounts := accounts + [account];
    }

    /** The choice list of menu 2: the current balance of every account,
      each through `getBalance` and `formatCurrency`; false where one of
      them throws. */
    method FormatsListing() returns (ok: bool)
      ensures ok == ListingFormats(accounts, transactions)
    {
      for k := 0 to |accounts|
        invariant forall j :: 0 <= j < k ==> BalanceFormats(accounts, transactions, accounts[j].id)
      {
        var balance := GetBalance(accounts[k].id);
        var shown := if balance.Some? then FormatCurrency(balance.value) else Err(TypeError);
        BalanceShown(accounts, transactions, accounts[k].id, balance, shown);
        if shown.Err? {
          return false;
        }
        FormatsPrefixStep(accounts, transactions, k);
      }
      return true;
    }

    /** Menu 2, "Gerenciar Contas". Building the choice list formats the
      balance of every account, and the name prompt's default formats the
      chosen account's initial balance; either throws where
      `formatCurrency` does. `option` is -1 ("Voltar") or the id of a
      listed account; the account found by id is overwritten in place. */
    method EditAccount(option: int, name: string, kind: AccountType, initialBalanceRaw: string)
      returns (r: Outcome<()>)
      requires option == -1 || AccountById(accounts, option).Some?
      requires option != -1 ==> ParseCurrency(initialBalanceRaw).Some?
      modifies this
      ensures r.Err? <==> || !ListingFormats(old(accounts), old(transactions))
                          || (option != -1 && FormatCurrency(AccountById(old(accounts), option).value.initialBalance).Err?)
      ensures r.Err? ==> r.error == TypeError
      ensures r.Err? || option == -1 ==> accounts == old(accounts)
      ensures r.Ok? && option != -1 ==>
        accounts == old(accounts)[IndexOfAccount(old(accounts), option).value :=
                                    LegacyAccount(option, name, kind, ParseCurrency(initialBalanceRaw).value)]
      ensures transactions == old(transactions)
      ensures IdsAreIndices(old(accounts)) ==> IdsAreIndices(accounts)
    {
      var listed := FormatsListing();
      if !listed {
        return Err(TypeError);
      }
      if option == -1 {
        return Ok(());
      }
      var account := AccountById(accounts, option).value;
      if FormatCurrency(account.initialBalance).Err? {
        return Err(TypeError);
      }
      var k := IndexOfAccount(accounts, option).value;
      accounts := accounts[k := LegacyAccount(option, name, kind, ParseCurrency(initialBalanceRaw).value)];
      return Ok(());
    }

    /** Menu 3, "Transferência": the source is any account, the destination
      one of the others. */
    method RecordTransfer(from: int, to: int, valueRaw: string)
      requires AccountById(accounts, from).Some?
      requires to in TransferDestinations(accounts, from)
      requires ParseCurrency(valueRaw).Some?
      modifies this
      ensures transactions == old(transactions) + [LegacyTransfer(from, to, ParseCurrency(valueRaw).value)]
      ensures accounts == old(accounts)
    {
      transactions := transactions + [LegacyTransfer(from, to, ParseCurrency(valueRaw).value)];
    }

    /** Menu 3, "Receita" or "Despesa": the transaction is dated `now`. */
    method RecordExternal(kind: ExternalTransactionType, accountId: int, valueRaw: string, now: int)
      requires AccountById(accounts, accountId).Some?
      requires ParseCurrency(valueRaw).Some?
      modifies this
      ensures transactions == old(transactions) + [LegacyExternal(kind, now, accountId, ParseCurrency(valueRaw).value)]
      ensures accounts == old(accounts)
    {
      transactions := transactions + [LegacyExternal(kind, now, accountId, ParseCurrency(valueRaw).value)];
    }
  }

  // ---------------------------------------------------------------------
  // Lemmas: money text
  // ---------------------------------------------------------------------

  /** `formatCurrency` throws on -9..9; otherwise it prints the whole units
      (nothing at all below 100), a comma and two digits of cents, and
      never a sign. */
  lemma FormatCurrencyShape(v: int)
    ensures FormatCurrency(v).Err? <==> -9 <= v <= 9
    ensures !(-9 <= v <= 9) ==> var n := if v < 0 then -v else v;
      FormatCurrency(v) == Ok((if n < 100 then "" else NatToString(n / 100)) + "," + TwoDigits(n % 100))
  {
    var n := if v < 0 then -v else v;
    if 0 <= v <= 9 {
      assert IntToString(v) == [DigitChar(v)];
    } else if -9 <= v < 0 {
      var s := IntToString(v);
      assert s == "-" + [DigitChar(-v)];
      assert MatchCents(s) == MatchCents(s[1..]);
    } else {
      var ds := NatToString(n);
      MatchCentsOfIntToString(v);
      NatToStringSplitCents(n);
      CentsDigits(n);
    }
  }

  /** Menu 2 can list the accounts exactly when `formatCurrency` prints
      the balance of every account. */
  lemma FormatsPrefixStep(accounts: seq<LegacyAccount>, ts: seq<LegacyTransaction>, k: nat)
    requires k < |accounts|
    requires forall j :: 0 <= j < k ==> BalanceFormats(accounts, ts, accounts[j].id)
    requires BalanceFormats(accounts, ts, accounts[k].id)
    ensures forall j :: 0 <= j < k + 1 ==> BalanceFormats(accounts, ts, accounts[j].id)
  {
  }

  lemma ListingFormatsIffPrinted(accounts: seq<LegacyAccount>, ts: seq<LegacyTransaction>)
    ensures ListingFormats(accounts, ts) <==>
      forall k :: 0 <= k < |accounts| ==>
        var b := LegacyBalance(accounts, ts, accounts[k].id); b.Some? && FormatCurrency(b.value).Ok?
  {
    forall k | 0 <= k < |accounts|
      ensures BalanceFormats(accounts, ts, accounts[k].id) <==>
        var b := LegacyBalance(accounts, ts, accounts[k].id); b.Some? && FormatCurrency(b.value).Ok?
    {
      var b := LegacyBalance(accounts, ts, accounts[k].id);
      if b.Some? {
        FormatCurrencyShape(b.value);
      }
    }
  }

  /** A single account with a zero balance already makes menu 2 throw,
      before any choice is made. */
  lemma ZeroBalanceBreaksListing()
    ensures FormatCurrency(0).Err?
    ensures !ListingFormats([LegacyAccount(0, "Carteira", Ativo, 0)], [])
  {
    var accounts := [LegacyAccount(0, "Carteira", Ativo, 0)];
    assert LegacyBalance(accounts, [], 0) == Some(0);
    FormatCurrencyShape(0);
  }

  /** A negative balance prints exactly as its magnitude. */
  lemma FormatCurrencyDropsSign(v: int)
    requires v >= 10
    ensures FormatCurrency(-v) == FormatCurrency(v)
  {
    FormatCurrencyShape(v);
    FormatCurrencyShape(-v);
  }

  /** Two-digit values print with an empty integer part, as in ",50". */
  lemma FormatCurrencyNoUnits(v: int)
    requires 10 <= v <= 99
    ensures FormatCurrency(v) == Ok("," + TwoDigits(v))
  {
    FormatCurrencyText(v, v, "", v);
    assert "" + "," + TwoDigits(v) == "," + TwoDigits(v);
  }

  /** The printed text of `v`, with its magnitude, whole units and cents
      named by the caller. */
  lemma FormatCurrencyText(v: int, n: nat, units: string, c: nat)
    requires !(-9 <= v <= 9)
    requires n == (if v < 0 then -v else v) && c == n % 100
    requires units == if n < 100 then "" else NatToString(n / 100)
    ensures FormatCurrency(v) == Ok(units + "," + TwoDigits(c))
  {
    FormatCurrencyShape(v);
  }

  /** What the edit menu reads back from the default text of a balance
      `v`: the magnitude, with the cents tenths scaled; below 100 the
      cents are read as whole units. */
  function ReadBackValue(v: int): int
  {
    var n := if v < 0 then -v else v;
    if n < 100 then n * 100 else n / 100 * 100 + ScaleFraction(n % 100)
  }

  /** The edit menu offers `formatCurrency(initialBalance)` as the default
      text and reads it back with `parseCurrency`. */
  lemma FormatCurrencyReadBack(v: int)
    requires !(-9 <= v <= 9)
    ensures FormatCurrency(v).Ok? && ParseCurrency(FormatCurrency(v).value) == Some(ReadBackValue(v))
  {
    ReadBackByMagnitude(v, if v < 0 then -v else v, ReadBackValue(v));
  }

  lemma ReadBackByMagnitude(v: int, n: int, x: int)
    requires !(-9 <= v <= 9)
    requires n == if v < 0 then -v else v
    requires x == if n < 100 then n * 100 else n / 100 * 100 + ScaleFraction(n % 100)
    ensures FormatCurrency(v).Ok? && ParseCurrency(FormatCurrency(v).value) == Some(x)
  {
    if n < 100 {
      ReadBackBelowHundred(v);
    } else {
      ReadBackFromHundred(v, x);
    }
  }

  lemma ReadBackBelowHundred(v: int)
    requires 10 <= v < 100 || -100 < v <= -10
    ensures var n := if v < 0 then -v else v;
      FormatCurrency(v).Ok? && ParseCurrency(FormatCurrency(v).value) == Some(n * 100)
  {
    var n := if v < 0 then -v else v;
    assert FormatCurrency(v) == Ok("," + TwoDigits(n)) by {
      FormatCurrencyNoUnits(n);
      if v < 0 {
        FormatCurrencyDropsSign(n);
      }
    }
    ReadBackOfText(v, TwoDigits(n), n);
  }

  lemma ReadBackOfText(v: int, cc: string, cents: nat)
    requires |cc| == 2 && AllDigits(cc) && Value(cc) == cents
    requires FormatCurrency(v) == Ok("," + cc)
    ensures ParseCurrency(FormatCurrency(v).value) == Some(cents * 100)
  {
    ReadBackNoUnits(cc, cents);
  }

  lemma ReadBackFromHundred(v: int, x: int)
    requires v >= 100 || v <= -100
    requires var n := if v < 0 then -v else v; x == n / 100 * 100 + ScaleFraction(n % 100)
    ensures FormatCurrency(v).Ok? && ParseCurrency(FormatCurrency(v).value) == Some(x)
  {
    var text, m := UnitsText(v);
    ReadBackOfMatch(v, text, m, x);
  }

  /** The text printed for a value of at least one unit, and what the
      pattern captures in it. */
  lemma UnitsText(v: int) returns (text: string, m: InputMatch)
    requires v >= 100 || v <= -100
    ensures var n := if v < 0 then -v else v;
      && FormatCurrency(v) == Ok(text) && MatchInput(text) == Some(m)
      && Cents(m) == n / 100 * 100 + ScaleFraction(n % 100)
  {
    var n := if v < 0 then -v else v;
    var ds, cc := NatToString(n / 100), TwoDigits(n % 100);
    text, m := ds + "," + cc, InputMatch(ds, cc);
    FormatCurrencyText(v, n, ds, n % 100);
    UnitsMatch(ds, cc, text);
    assert Value(ds) == n / 100 by { ValueOfNatToString(n / 100); }
    CentsOfValues(ds, cc, n / 100, n % 100);
  }

  lemma UnitsMatch(ds: string, cc: string, text: string)
    requires |ds| >= 1 && AllDigits(ds) && |cc| == 2 && AllDigits(cc)
    requires text == ds + "," + cc
    ensures MatchInput(text) == Some(InputMatch(ds, cc))
  {
    assert "" + ds + "," + cc == text;
    assert !HasDigit("");
    MatchDigitsCommaCents("", ds, cc);
  }

  lemma ReadBackOfMatch(v: int, text: string, m: InputMatch, x: int)
    requires FormatCurrency(v) == Ok(text)
    requires MatchInput(text) == Some(m) && Cents(m) == x
    ensures FormatCurrency(v).Ok? && ParseCurrency(FormatCurrency(v).value) == Some(x)
  {
  }

  lemma FormatCurrencyWithUnits(v: int)
    requires v >= 100 || v <= -100
    ensures var n := if v < 0 then -v else v;
      FormatCurrency(v) == Ok(NatToString(n / 100) + "," + TwoDigits(n % 100))
  {
    var n := if v < 0 then -v else v;
    MatchCentsOfIntToString(v);
    NatToStringSplitCents(n);
    CentsDigits(n);
  }

  /** ",xy" is read as xy whole units: the pattern starts at the first
      digit and finds no comma after it. */
  lemma ReadBackNoUnits(cc: string, cents: nat)
    requires |cc| == 2 && AllDigits(cc) && Value(cc) == cents
    ensures ParseCurrency("," + cc) == Some(cents * 100)
  {
    assert MatchInput("," + cc) == Some(InputMatch(cc, "")) by {
      assert !HasDigit(",");
      MatchInputSkipsNonDigits(",", cc);
      MatchInputNoComma(cc, "");
      assert cc + "" == cc;
    }
    CentsOfWhole(cc);
  }

  /** Keeping the default text keeps the balance exactly when the balance
      is at least 100 and its cents are 0 or at least 10. */
  lemma {:induction false} EditDefaultKeepsBalance(v: int)
    ensures (FormatCurrency(v).Ok? && ParseCurrency(FormatCurrency(v).value) == Some(v))
        <==> v >= 100 && (v % 100 == 0 || v % 100 >= 10)
  {
    if -9 <= v <= 9 {
      FormatCurrencyShape(v);
    } else {
      FormatCurrencyReadBack(v);
      ReadBackValueFixed(v);
    }
  }

  /** The read-back value equals the balance exactly when the balance is
      at least 100 and its cents are 0 or at least 10. */
  lemma ReadBackValueFixed(v: int)
    requires !(-9 <= v <= 9)
    ensures ReadBackValue(v) == v <==> v >= 100 && (v % 100 == 0 || v % 100 >= 10)
  {
    var n := if v < 0 then -v else v;
    WholeAndCents(n);
  }

  // ---------------------------------------------------------------------
  // Lemmas: accounts and menus
  // ---------------------------------------------------------------------

  /** With ids numbered by position, looking an id up finds the account at
      that position, and nothing outside 0..|accounts|-1. */
  lemma LookupByPosition(accounts: seq<LegacyAccount>, id: int)
    requires IdsAreIndices(accounts)
    ensures AccountById(accounts, id) == if 0 <= id < |accounts| then Some(accounts[id]) else None
  {
    if 0 <= id < |accounts| {
      assert accounts[id].id == id;
      var k := IndexOfAccount(accounts, id).value;
      assert accounts[k].id == k;
    }
  }

  /** Account lookup looks only at ids. */
  lemma IndexOfAccountSameIds(x: seq<LegacyAccount>, y: seq<LegacyAccount>, id: int)
    requires |x| == |y| && forall i :: 0 <= i < |x| ==> x[i].id == y[i].id
    ensures IndexOfAccount(x, id) == IndexOfAccount(y, id)
  {
    var a, b := IndexOfAccount(x, id), IndexOfAccount(y, id);
    if a.Some? && b.Some? {
      assert !(a.value < b.value) && !(b.value < a.value);
    }
  }

  lemma LegacyBalanceOf(accounts: seq<LegacyAccount>, ts: seq<LegacyTransaction>, accountId: int, a: LegacyAccount)
    requires AccountById(accounts, accountId) == Some(a)
    ensures LegacyBalance(accounts, ts, accountId) == Some(a.initialBalance + LegacyNet(ts, accountId))
  {
  }

  lemma LegacyBalanceMissing(accounts: seq<LegacyAccount>, ts: seq<LegacyTransaction>, accountId: int)
    requires IndexOfAccount(accounts, accountId).None?
    ensures LegacyBalance(accounts, ts, accountId).None?
  {
  }

  /** The balance does not depend on the account's type: a liability is
      computed exactly like an asset. */
  lemma LegacyBalanceIgnoresType(accounts: seq<LegacyAccount>, ts: seq<LegacyTransaction>, id: int,
                                 k: nat, kind: AccountType)
    requires k < |accounts|
    ensures LegacyBalance(accounts[k := accounts[k].(kind := kind)], ts, id) == LegacyBalance(accounts, ts, id)
  {
    var changed := accounts[k := accounts[k].(kind := kind)];
    IndexOfAccountSameIds(changed, accounts, id);
    match IndexOfAccount(accounts, id)
    case None =>
      SameMissingBalance(changed, accounts, ts, id);
    case Some(j) =>
      assert changed[j].initialBalance == accounts[j].initialBalance;
      SameFoundBalance(changed, accounts, ts, id, changed[j], accounts[j]);
  }

  lemma SameMissingBalance(x: seq<LegacyAccount>, y: seq<LegacyAccount>, ts: seq<LegacyTransaction>, id: int)
    requires IndexOfAccount(x, id).None? && IndexOfAccount(y, id).None?
    ensures LegacyBalance(x, ts, id) == LegacyBalance(y, ts, id)
  {
    LegacyBalanceMissing(x, ts, id);
    LegacyBalanceMissing(y, ts, id);
  }

  lemma SameFoundBalance(x: seq<LegacyAccount>, y: seq<LegacyAccount>, ts: seq<LegacyTransaction>, id: int,
                         a: LegacyAccount, b: LegacyAccount)
    requires AccountById(x, id) == Some(a) && AccountById(y, id) == Some(b)
    requires a.initialBalance == b.initialBalance
    ensures LegacyBalance(x, ts, id) == LegacyBalance(y, ts, id)
  {
    LegacyBalanceOf(x, ts, id, a);
    LegacyBalanceOf(y, ts, id, b);
  }

  /** Two transactions that differ at most in their date. */
  predicate SameButDate(a: LegacyTransaction, b: LegacyTransaction)
  {
    match a
    case LegacyTransfer(_, _, _) => a == b
    case LegacyExternal(kind, _, accountId, value) => b.LegacyExternal? && b.(date := a.date) == a
  }

  /** No date filter: restamping any transactions leaves the net change
      unchanged. */
  lemma {:induction false} LegacyNetIgnoresDates(xs: seq<LegacyTransaction>, ys: seq<LegacyTransaction>,
                                                 accountId: int)
    requires |xs| == |ys| && forall i :: 0 <= i < |xs| ==> SameButDate(xs[i], ys[i])
    ensures LegacyNet(xs, accountId) == LegacyNet(ys, accountId)
    decreases |xs|
  {
    if xs != [] {
      var n := |xs| - 1;
      assert LegacyContribution(xs[n], accountId) == LegacyContribution(ys[n], accountId) by {
        assert SameButDate(xs[n], ys[n]);
      }
      LegacyNetIgnoresDates(xs[..n], ys[..n], accountId);
    }
  }

  /** The destination list never offers the source account. */
  lemma TransferNeverToSelf(accounts: seq<LegacyAccount>, from: int)
    ensures from !in TransferDestinations(accounts, from)
  {
  }

  /** A transfer needs a second account: a destination exists only when
      there are at least two accounts, which is why the menu disables
      "Transferência" when there is exactly one. */
  lemma TransferNeedsTwoAccounts(accounts: seq<LegacyAccount>, from: int, to: int)
    requires AccountById(accounts, from).Some?
    requires to in TransferDestinations(accounts, from)
    ensures |accounts| >= 2
  {
    var i :| 0 <= i < |accounts| && accounts[i].id == from;
    var j :| 0 <= j < |accounts| && accounts[j].id == to;
    assert i != j;
  }

  /** Appending an account numbered by the current length keeps ids equal
      to positions. */
  lemma CreateKeepsIdsAreIndices(accounts: seq<LegacyAccount>, name: string, kind: AccountType, balance: int)
    requires IdsAreIndices(accounts)
    ensures IdsAreIndices(accounts + [LegacyAccount(|accounts|, name, kind, balance)])
    ensures AccountById(accounts + [LegacyAccount(|accounts|, name, kind, balance)], |accounts|)
         == Some(LegacyAccount(|accounts|, name, kind, balance))
  {
    var after := accounts + [LegacyAccount(|accounts|, name, kind, balance)];
    LookupByPosition(after, |accounts|);
  }

  // ---------------------------------------------------------------------
  // Lemmas: agreement with the balance worker
  // ---------------------------------------------------------------------

  /** A terminal transaction as the web application stores it: ids become
      their decimal text and a transfer, which has no date, is given
      `transferDate`. */
  function Lift(t: LegacyTransaction, transferDate: int): Transaction
  {
    match t
    case LegacyTransfer(fromId, toId, value) =>
      Transfer("", transferDate, "", value, IntToString(fromId), IntToString(toId))
    case LegacyExternal(kind, date, accountId, value) =>
      External("", date, "", value, IntToString(accountId), kind)
  }

  function LiftAll(ts: seq<LegacyTransaction>, transferDate: int): (r: seq<Transaction>)
    ensures |r| == |ts|
  {
    if ts == [] then [] else LiftAll(ts[..|ts| - 1], transferDate) + [Lift(ts[|ts| - 1], transferDate)]
  }

  function LiftAccount(a: LegacyAccount): Account
  {
    Account(IntToString(a.id), a.name, a.initialBalance, a.kind)
  }

  /** Every transaction falls on or before `periodEnd`. */
  predicate AllWithin(ts: seq<LegacyTransaction>, transferDate: int, periodEnd: int)
  {
    transferDate <= periodEnd && forall i :: 0 <= i < |ts| && ts[i].LegacyExternal? ==> ts[i].date <= periodEnd
  }

  lemma LiftContribution(t: LegacyTransaction, accountId: int, transferDate: int, periodEnd: int)
    requires transferDate <= periodEnd && (t.LegacyExternal? ==> t.date <= periodEnd)
    ensures Contribution(Lift(t, transferDate), IntToString(accountId), Ativo, periodEnd)
         == LegacyContribution(t, accountId)
  {
    match t
    case LegacyTransfer(fromId, toId, value) =>
      IntToStringInjective(fromId, accountId);
      IntToStringInjective(toId, accountId);
    case LegacyExternal(kind, date, onAccount, value) =>
      IntToStringInjective(onAccount, accountId);
  }

  /** Within the period, the terminal's net change is the worker's net
      change for an asset. */
  lemma {:induction false} LiftNet(ts: seq<LegacyTransaction>, accountId: int, transferDate: int, periodEnd: int)
    requires AllWithin(ts, transferDate, periodEnd)
    ensures NetChange(LiftAll(ts, transferDate), IntToString(accountId), Ativo, periodEnd)
         == LegacyNet(ts, accountId)
    decreases |ts|
  {
    if ts != [] {
      var n := |ts| - 1;
      var lifted := LiftAll(ts, transferDate);
      assert lifted[..n] == LiftAll(ts[..n], transferDate);
      assert lifted[n] == Lift(ts[n], transferDate);
      assert AllWithin(ts[..n], transferDate, periodEnd) by {
        assert forall i :: 0 <= i < n ==> ts[..n][i] == ts[i];
      }
      LiftNet(ts[..n], accountId, transferDate, periodEnd);
      LiftContribution(ts[n], accountId, transferDate, periodEnd);
    }
  }

  /** For an asset account, with every transaction on or before the end of
      the period, the terminal and the worker compute the same balance. */
  lemma WorkerAgreesForAssets(accounts: seq<LegacyAccount>, ts: seq<LegacyTransaction>, accountId: int,
                              transferDate: int, period: (int, int))
    requires AccountById(accounts, accountId).Some?
    requires AccountById(accounts, accountId).value.kind == Ativo
    requires AllWithin(ts, transferDate, period.1)
    ensures LegacyBalance(accounts, ts, accountId)
         == Some(Balance(LiftAccount(AccountById(accounts, accountId).value), IntToString(accountId), period,
                         LiftAll(ts, transferDate)))
  {
    var a := AccountById(accounts, accountId).value;
    var lifted := LiftAll(ts, transferDate);
    var key := IntToString(accountId);
    assert NetChange(lifted, key, Ativo, period.1) == LegacyNet(ts, accountId) by {
      LiftNet(ts, accountId, transferDate, period.1);
    }
    AssetAgreement(accounts, ts, accountId, a, key, period, lifted);
  }

  /** The balance step: both start from the account's initial balance and
      add the same net change. */
  lemma AssetAgreement(accounts: seq<LegacyAccount>, ts: seq<LegacyTransaction>, accountId: int, a: LegacyAccount,
                       key: string, period: (int, int), lifted: seq<Transaction>)
    requires AccountById(accounts, accountId) == Some(a) && a.kind == Ativo
    requires NetChange(lifted, key, Ativo, period.1) == LegacyNet(ts, accountId)
    ensures LegacyBalance(accounts, ts, accountId) == Some(Balance(LiftAccount(a), key, period, lifted))
  {
  }

  /** For a liability account the two disagree: the worker reverses every
      sign the terminal applies. */
  lemma WorkerReversesLiabilities(accounts: seq<LegacyAccount>, ts: seq<LegacyTransaction>, accountId: int,
                                  transferDate: int, period: (int, int))
    requires AccountById(accounts, accountId).Some?
    requires AccountById(accounts, accountId).value.kind == Passivo
    requires AllWithin(ts, transferDate, period.1)
    ensures var a := AccountById(accounts, accountId).value;
      Balance(LiftAccount(a), IntToString(accountId), period, LiftAll(ts, transferDate))
      == a.initialBalance - LegacyNet(ts, accountId)
  {
    LiftNet(ts, accountId, transferDate, period.1);
    PassivoMirrorsAtivo(LiftAll(ts, transferDate), IntToString(accountId), period.1);
  }
}
