/** The balance worker: an account's balance at the end of a period is its
    initial balance plus the signed values of the transactions that touch
    it and are dated on or before the period's end. */
module BalanceWorker {
  import opened Wrappers
  import opened Accounts
  import opened Transactions

  // ---------------------------------------------------------------------
  // Specification
  // ---------------------------------------------------------------------

  /** Whether a transaction names the account on any side. */
  predicate Touches(t: Transaction, accountId: string)
  {
    match t
    case Transfer(_, _, _, _, fromId, toId) => fromId == accountId || toId == accountId
    case External(_, _, _, _, onAccount, _) => onAccount == accountId
  }

  /** The amount one transaction adds to the balance of `accountId`, an
      account of type `kind`. A transfer is matched on `fromId` first and on
      `toId` only otherwise; money leaving an asset (`Ativo`) lowers it,
      money leaving a liability (`Passivo`) raises it. */
  function Contribution(t: Transaction, accountId: string, kind: AccountType, periodEnd: int): int
  {
    if t.date > periodEnd then 0
    else match t
      case Transfer(_, _, _, value, fromId, toId) =>
        if fromId == accountId then (match kind case Ativo => -value case Passivo => value)
        else if toId == accountId then (match kind case Ativo => value case Passivo => -value)
        else 0
      case External(_, _, _, value, onAccount, transactionType) =>
        if onAccount != accountId then 0
        else match kind
          case Ativo => (match transactionType case Receita => value case Despesa => -value)
          case Passivo => (match transactionType case Receita => -value case Despesa => value)
  }

  /** The sum of the contributions of `ts`. */
  function NetChange(ts: seq<Transaction>, accountId: string, kind: AccountType, periodEnd: int): int
  {
    if ts == [] then 0
    else NetChange(ts[..|ts| - 1], accountId, kind, periodEnd)
         + Contribution(ts[|ts| - 1], accountId, kind, periodEnd)
  }

  /** The balance `calculateBalance` promises for a period `(start, end)`. */
  function Balance(account: Account, accountId: string, period: (int, int), ts: seq<Transaction>): int
  {
    account.initialBalance + NetChange(ts, accountId, account.kind, period.1)
  }

  predicate SortedByDate(s: seq<Transaction>)
  {
    forall i, j :: 0 <= i < j < |s| ==> s[i].date <= s[j].date
  }

  // ---------------------------------------------------------------------
  // calculateBalance
  // ---------------------------------------------------------------------

  /** `transactions.sort((a, b) => a.date.unix() - b.date.unix())`, in
      place; a stable insertion sort. */
  method SortByDate(a: array<Transaction>)
    modifies a
    ensures SortedByDate(a[..])
    ensures multiset(a[..]) == multiset(old(a[..]))
  {
    for i := 0 to a.Length
      invariant SortedUpTo(a[..], i)
      invariant multiset(a[..]) == multiset(old(a[..]))
    {
      InsertLast(a, i);
    }
  }

  /** Moves `a[i]` left past every later-dated element, so that the first
      `i + 1` elements are in date order when the first `i` were. */
  method InsertLast(a: array<Transaction>, i: nat)
    requires i < a.Length
    requires SortedUpTo(a[..], i)
    modifies a
    ensures SortedUpTo(a[..], i + 1)
    ensures multiset(a[..]) == multiset(old(a[..]))
  {
    var j := i;
    StartInsert(a[..], i);
    while j > 0 && a[j - 1].date > a[j].date
      invariant 0 <= j <= i
      invariant Inserting(a[..], i, j)
      invariant multiset(a[..]) == multiset(old(a[..]))
    {
      ghost var s := a[..];
      SwapKeepsMultiset(s, j - 1);
      a[j - 1], a[j] := a[j], a[j - 1];
      SwapStep(s, a[..], i, j);
      j := j - 1;
    }
    FinishInsert(a[..], i, j);
  }

  /** `s` with the neighbours at `k` and `k + 1` exchanged. */
  function Swapped<T>(s: seq<T>, k: nat): seq<T>
    requires k + 1 < |s|
  {
    s[k := s[k + 1]][k + 1 := s[k]]
  }

  /** The first `n` elements of `s` are in date order. */
  predicate SortedUpTo(s: seq<Transaction>, n: nat)
    requires n <= |s|
  {
    forall p, q :: 0 <= p < q < n ==> s[p].date <= s[q].date
  }

  /** The loop invariant of `InsertLast`: the element being inserted sits at
      `j`, every other element of `s[..i + 1]` is in order, and everything
      after `j` is dated later than it. */
  predicate Inserting(s: seq<Transaction>, i: nat, j: nat)
    requires j <= i < |s|
  {
    && (forall p, q :: 0 <= p < q <= i && p != j && q != j ==> s[p].date <= s[q].date)
    && (forall q :: j < q <= i ==> s[j].date < s[q].date)
    && (0 < j < i ==> s[j - 1].date <= s[j + 1].date)
  }

  lemma StartInsert(s: seq<Transaction>, i: nat)
    requires i < |s| && SortedUpTo(s, i)
    ensures Inserting(s, i, i)
  {
  }

  /** One swap moves the inserted element one place left and keeps the
      invariant. */
  lemma SwapStep(s: seq<Transaction>, t: seq<Transaction>, i: nat, j: nat)
    requires 0 < j <= i < |s| && Inserting(s, i, j) && s[j - 1].date > s[j].date
    requires t == Swapped(s, j - 1)
    ensures Inserting(t, i, j - 1)
  {
    forall p, q | 0 <= p < q <= i && p != j - 1 && q != j - 1
      ensures t[p].date <= t[q].date
    {
      if q == j {
        assert t[q] == s[j - 1] && t[p] == s[p];
      } else if p == j {
        assert t[p] == s[j - 1] && t[q] == s[q];
      } else {
        assert t[p] == s[p] && t[q] == s[q];
      }
    }
  }

  /** Swapping two neighbours keeps the multiset of elements. */
  lemma SwapKeepsMultiset<T>(s: seq<T>, k: nat)
    requires k + 1 < |s|
    ensures multiset(Swapped(s, k)) == multiset(s)
  {
    assert s == s[..k] + [s[k], s[k + 1]] + s[k + 2..];
    assert s[k := s[k + 1]][k + 1 := s[k]] == s[..k] + [s[k + 1], s[k]] + s[k + 2..];
  }

  /** When the inserted element meets an earlier-or-equal date (or the
      front), the prefix is sorted. */
  lemma FinishInsert(s: seq<Transaction>, i: nat, j: nat)
    requires j <= i < |s| && Inserting(s, i, j) && (j == 0 || s[j - 1].date <= s[j].date)
    ensures SortedUpTo(s, i + 1)
  {
  }

  /** `calculateBalance(accountId, period)`, with the decoded account and
      the decoded transactions passed in. */
  method CalculateBalance(accountId: string, period: (int, int), account: Account,
                          transactions: seq<Transaction>)
    returns (balance: int)
    ensures balance == Balance(account, accountId, period, transactions)
  {
    var a := new Transaction[|transactions|](i requires 0 <= i < |transactions| => transactions[i]);
    assert a[..] == transactions;
    SortByDate(a);
    balance := account.initialBalance;
    for i := 0 to a.Length
      invariant balance == account.initialBalance + NetChange(a[..i], accountId, account.kind, period.1)
    {
      var t := a[i];
      assert a[..i + 1] == a[..i] + [t];
      if t.date > period.1 {
        continue;
      }
      if t.Transfer? {
        if t.fromId == accountId {
          match account.kind {
            case Ativo => balance := balance - t.value;
            case Passivo => balance := balance + t.value;
          }
        } else if t.toId == accountId {
          match account.kind {
            case Ativo => balance := balance + t.value;
            case Passivo => balance := balance - t.value;
          }
        }
      } else if t.accountId == accountId {
        match (account.kind, t.kind) {
          case (Ativo, Receita) => balance := balance + t.value;
          case (Ativo, Despesa) => balance := balance - t.value;
          case (Passivo, Receita) => balance := balance - t.value;
          case (Passivo, Despesa) => balance := balance + t.value;
        }
      }
    }
    assert a[..a.Length] == a[..];
    NetChangePermutation(a[..], transactions, accountId, account.kind, period.1);
  }

  // ---------------------------------------------------------------------
  // The message handler
  // ---------------------------------------------------------------------

  /** The message posted back: the requested account and its balance. */
  datatype Reply = Reply(accountId: string, balance: int)

  /** Why no reply is posted: `AccountSchema.parse` or
      `TransactionSchema.array().parse` threw. */
  datatype Failure = AccountNotDecoded | TransactionsNotDecoded

  /** `TransactionSchema.array().parse`: every record must decode. */
  function DecodeAll(records: seq<TransactionRecord>, parseDate: string -> Option<int>)
    : (r: Option<seq<Transaction>>)
    ensures r.Some? <==> forall i :: 0 <= i < |records| ==> DecodeTransaction(records[i], parseDate).Some?
    ensures r.Some? ==> && |r.value| == |records|
                        && forall i :: 0 <= i < |records| ==>
                             Some(r.value[i]) == DecodeTransaction(records[i], parseDate)
  {
    var decoded := seq(|records|, i requires 0 <= i < |records| => DecodeTransaction(records[i], parseDate));
    assert forall i :: 0 <= i < |records| ==> decoded[i] == DecodeTransaction(records[i], parseDate);
    Collect(decoded)
  }

  /** Every element's value, in order, when every element has one. */
  function Collect<T>(s: seq<Option<T>>): (r: Option<seq<T>>)
    ensures r.Some? <==> forall i :: 0 <= i < |s| ==> s[i].Some?
    ensures r.Some? ==> |r.value| == |s| && forall i :: 0 <= i < |s| ==> Some(r.value[i]) == s[i]
  {
    if s == [] then Some([])
    else
      var front := s[..|s| - 1];
      assert forall i :: 0 <= i < |front| ==> front[i] == s[i];
      match (Collect(front), s[|s| - 1])
      case (Some(ts), Some(t)) => Some(ts + [t])
      case _ => None
  }

  /** The `message` listener: the account document is looked up by
      `accountId` in the accounts store, every stored transaction is read,
      and the reply echoes the request's `accountId` beside the balance. */
  method HandleMessage(accountId: string, period: (int, int), accountStore: map<string, AccountRecord>,
                       transactionStore: seq<TransactionRecord>, parseDate: string -> Option<int>)
    returns (reply: Result<Reply, Failure>)
    ensures reply.Err? <==> || accountId !in accountStore
                            || DecodeAccount(accountStore[accountId]).None?
                            || DecodeAll(transactionStore, parseDate).None?
    ensures reply.Ok? ==> && reply.value.accountId == accountId
                          && reply.value.balance
                             == Balance(DecodeAccount(accountStore[accountId]).value, accountId, period,
                                        DecodeAll(transactionStore, parseDate).value)
  {
    if accountId !in accountStore {
      return Err(AccountNotDecoded);
    }
    var account := DecodeAccount(accountStore[accountId]);
    if account.None? {
      return Err(AccountNotDecoded);
    }
    var transactions := DecodeAll(transactionStore, parseDate);
    if transactions.None? {
      return Err(TransactionsNotDecoded);
    }
    var balance := CalculateBalance(accountId, period, account.value, transactions.value);
    reply := Ok(Reply(accountId, balance));
  }

  // ---------------------------------------------------------------------
  // Lemmas
  // ---------------------------------------------------------------------

  lemma {:induction false} NetChangeAppend(x: seq<Transaction>, y: seq<Transaction>,
                                           accountId: string, kind: AccountType, periodEnd: int)
    ensures NetChange(x + y, accountId, kind, periodEnd)
         == NetChange(x, accountId, kind, periodEnd) + NetChange(y, accountId, kind, periodEnd)
    decreases |y|
  {
    if y == [] {
      assert x + y == x;
    } else {
      var y' := y[..|y| - 1];
      assert (x + y)[..|x + y| - 1] == x + y';
      NetChangeAppend(x, y', accountId, kind, periodEnd);
    }
  }

  /** The net change does not depend on the order of the transactions. */
  lemma {:induction false} NetChangePermutation(x: seq<Transaction>, y: seq<Transaction>,
                                                accountId: string, kind: AccountType, periodEnd: int)
    requires multiset(x) == multiset(y)
    ensures NetChange(x, accountId, kind, periodEnd) == NetChange(y, accountId, kind, periodEnd)
    decreases |x|
  {
    if x == [] {
      assert |y| == |multiset(y)| == 0;
    } else {
      var x', e := x[..|x| - 1], x[|x| - 1];
      RemoveAtMultiset(x, |x| - 1);
      assert x[..|x| - 1] + x[|x|..] == x';
      assert e in multiset(y);
      var j :| 0 <= j < |y| && y[j] == e;
      RemoveAtMultiset(y, j);
      NetChangeRemoveAt(y, j, accountId, kind, periodEnd);
      NetChangePermutation(x', y[..j] + y[j + 1..], accountId, kind, periodEnd);
    }
  }

  lemma RemoveAtMultiset<T>(s: seq<T>, j: nat)
    requires j < |s|
    ensures multiset(s[..j] + s[j + 1..]) == multiset(s) - multiset{s[j]}
  {
    assert s == s[..j] + [s[j]] + s[j + 1..];
  }

  /** Taking one transaction out of the list takes its contribution out of
      the net change. */
  lemma NetChangeRemoveAt(s: seq<Transaction>, j: nat, accountId: string, kind: AccountType, periodEnd: int)
    requires j < |s|
    ensures NetChange(s, accountId, kind, periodEnd)
         == NetChange(s[..j] + s[j + 1..], accountId, kind, periodEnd) + Contribution(s[j], accountId, kind, periodEnd)
  {
    assert s == s[..j] + [s[j]] + s[j + 1..];
    NetChangeAppend(s[..j] + [s[j]], s[j + 1..], accountId, kind, periodEnd);
    NetChangeAppend(s[..j], [s[j]], accountId, kind, periodEnd);
    NetChangeAppend(s[..j], s[j + 1..], accountId, kind, periodEnd);
    assert NetChange([s[j]], accountId, kind, periodEnd) == Contribution(s[j], accountId, kind, periodEnd);
  }

  /** Sorting, or any other reordering of the input, leaves the balance
      unchanged. */
  lemma BalanceOrderIndependent(account: Account, accountId: string, period: (int, int),
                                x: seq<Transaction>, y: seq<Transaction>)
    requires multiset(x) == multiset(y)
    ensures Balance(account, accountId, period, x) == Balance(account, accountId, period, y)
  {
    NetChangePermutation(x, y, accountId, account.kind, period.1);
  }

  /** A transaction dated after the period's end changes nothing, wherever
      it stands in the list. */
  lemma AfterPeriodIgnored(account: Account, accountId: string, period: (int, int),
                           x: seq<Transaction>, t: Transaction, y: seq<Transaction>)
    requires t.date > period.1
    ensures Balance(account, accountId, period, x + [t] + y) == Balance(account, accountId, period, x + y)
  {
    NetChangeAppend(x + [t], y, accountId, account.kind, period.1);
    NetChangeAppend(x, [t], accountId, account.kind, period.1);
    NetChangeAppend(x, y, accountId, account.kind, period.1);
    assert NetChange([t], accountId, account.kind, period.1) == 0;
  }

  /** The start of the period is never consulted. */
  lemma PeriodStartIgnored(account: Account, accountId: string, start1: int, start2: int, end: int,
                           ts: seq<Transaction>)
    ensures Balance(account, accountId, (start1, end), ts) == Balance(account, accountId, (start2, end), ts)
  {
  }

  /** When no transaction on or before the period's end names the account,
      the balance is the initial balance. */
  lemma {:induction false} UntouchedKeepsInitial(account: Account, accountId: string, period: (int, int),
                                                 ts: seq<Transaction>)
    requires forall i :: 0 <= i < |ts| ==> ts[i].date > period.1 || !Touches(ts[i], accountId)
    ensures Balance(account, accountId, period, ts) == account.initialBalance
    decreases |ts|
  {
    if ts != [] {
      var front := ts[..|ts| - 1];
      assert forall i :: 0 <= i < |front| ==> front[i] == ts[i];
      UntouchedKeepsInitial(account, accountId, period, front);
    }
  }

  /** The same transactions move a liability by the opposite of what they
      move an asset. */
  lemma {:induction false} PassivoMirrorsAtivo(ts: seq<Transaction>, accountId: string, periodEnd: int)
    ensures NetChange(ts, accountId, Passivo, periodEnd) == -NetChange(ts, accountId, Ativo, periodEnd)
    decreases |ts|
  {
    if ts != [] {
      PassivoMirrorsAtivo(ts[..|ts| - 1], accountId, periodEnd);
    }
  }

  /** Income and expense of the same amount move the balance in opposite
      directions, for either account type. */
  lemma ReceitaOpposesDespesa(id: string, date: int, description: string, value: int, onAccount: string,
                              accountId: string, kind: AccountType, periodEnd: int)
    ensures Contribution(External(id, date, description, value, onAccount, Receita), accountId, kind, periodEnd)
         == -Contribution(External(id, date, description, value, onAccount, Despesa), accountId, kind, periodEnd)
  {
  }

  /** Income raises an asset and lowers a liability by its value. */
  lemma ReceitaOnAccount(t: Transaction, periodEnd: int)
    requires t.External? && t.kind == Receita && t.date <= periodEnd
    ensures Contribution(t, t.accountId, Ativo, periodEnd) == t.value
    ensures Contribution(t, t.accountId, Passivo, periodEnd) == -t.value
  {
  }

  /** A transfer between two different accounts of the same type moves
      the same amount out of one and into the other. */
  lemma TransferConserves(t: Transaction, kind: AccountType, periodEnd: int)
    requires t.Transfer? && t.fromId != t.toId && t.date <= periodEnd
    ensures Contribution(t, t.fromId, kind, periodEnd) + Contribution(t, t.toId, kind, periodEnd) == 0
    ensures Contribution(t, t.fromId, Ativo, periodEnd) == -t.value
  {
  }

  /** A transfer from an account to itself is not neutral: only the
      outgoing rule applies. */
  lemma SelfTransferNotNeutral(t: Transaction, periodEnd: int)
    requires t.Transfer? && t.fromId == t.toId && t.date <= periodEnd
    ensures Contribution(t, t.fromId, Ativo, periodEnd) == -t.value
    ensures Contribution(t, t.fromId, Passivo, periodEnd) == t.value
  {
  }
}
