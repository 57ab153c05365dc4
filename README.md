# MeuBolso ledger core in Dafny

MeuBolso is a personal-finance ledger: accounts (`Ativo` assets and
`Passivo` liabilities) and transactions (transfers between two accounts,
and `Receita` income or `Despesa` expense on one account), with money held
exactly as integer cents. This project models the ledger's core and
proves properties of the model:

- `money.dfy` covers `MonetaryAmount`. It has the loose parser for typed
  amounts (`/(\d+),?(\d{0,2})/` and the tenths rule). It has the canonical
  parser and printer for the stored integer-cents text. It has the
  `R$ 1.234,56` formatter. `decimal.dfy` holds the digit-string arithmetic
  these use: `toString()`, and `BigInt` over decimal text.
- `accounts.dfy` and `transactions.dfy` cover the entities. These are the
  two enums and the Transfer/External union told apart by field presence.
  They also cover decoding and encoding their documents through the
  canonical money text, and what the storage collections accept.
- `balance_worker.dfy` covers `calculateBalance`. It is a method that
  copies the transactions into an array and sorts them in place by date
  (an insertion sort). It then accumulates the balance in a loop. It is
  proved equal to the initial balance plus a recursive sum of signed
  contributions. The message handler is modelled around it.
- `legacy_cli.dfy` covers the terminal front end. This is `parseCurrency`,
  `formatCurrency` and `getBalance`. It has a `Storage` class whose
  accounts and transactions the menus change in place. It relates the
  terminal's balance to the worker's.
- `custom_form.dfy` covers the form component. These are the validators
  `required`, `pattern`, `custom` and `monetaryAmount`. It has a `Form`
  class holding the field-signal and field-validator dictionaries. It has
  the submit pass that runs every validator and either submits the values
  or reports every error.

Behaviour that is modelled as the code is written, and proved:

- The loose parser's fraction rule tests the fraction's value, not how
  many digits were typed. So "10,05" is read as 1050 cents, like "10,5"
  (`Money.ParseInputExamples`).
- The pattern is not anchored. Text without a digit is the only input
  it rejects, and anything after the matched part is ignored
  (`Money.ParseInput`, `Money.MatchInputSkipsNonDigits`,
  `Money.MatchInputWithFraction`, `Money.TrailingTextIgnored`,
  `Money.ParseStopsAtDot`).
- A transfer from an account to itself is not neutral in the worker.
  The `else if` applies only the outgoing rule
  (`BalanceWorker.SelfTransferNotNeutral`).
- `formatCurrency` has three edge cases (`LegacyCli.FormatCurrencyShape`):
  - it prints ",50" for 50 cents, because `integer ?? 0` does not replace
    an empty string;
  - it drops the sign of negative values;
  - it throws for -9..9.
- Reading the edit menu's default text back keeps a balance only in the
  cases `LegacyCli.EditDefaultKeepsBalance` lists. The web edit view's
  round trip through `formatMonetaryAmount` keeps a value only in the
  cases `Money.FormatThenParseInput` lists.

## Model

| member | source | states |
|---|---|---|
| Decimal.ValueOfNatToString | src/MonetaryAmount.ts:55 | the decimal text `toString()` prints for a non-negative amount denotes that amount |
| Decimal.NatToStringLength | src/MonetaryAmount.ts:28 | the text of n has at most k characters exactly when n < 10^k |
| Decimal.IntToStringInjective | src/MonetaryAmount.ts:55 | two amounts print the same text exactly when they are equal |
| Decimal.ParseBigIntOfIntToString | src/MonetaryAmount.ts:33 | `BigInt` reads the printed text of every integer back as that integer |
| Money.LeadingDigits | src/MonetaryAmount.ts:8 | the greedy `\d+` takes the longest all-digit prefix: what follows it is not a digit |
| Money.FractionAfter | src/MonetaryAmount.ts:8 | `,?` takes a leading comma when there is one, and `\d{0,2}` then takes the digits right after it, stopping at two digits or at the first non-digit |
| Money.MatchInput | src/MonetaryAmount.ts:8-13 | the pattern fails exactly when the text has no digit; otherwise the integer group has at least one digit and the fraction group at most two |
| Money.ScaleFraction | src/MonetaryAmount.ts:18-20 | the scaled fraction of a value below 100 stays below 100 and is never 1..9 |
| Money.ParseInput | src/MonetaryAmount.ts:7-25 | throws, with a message that carries the input, exactly when the input has no digit; otherwise returns an amount of at least 0 |
| Money.ParseInputUnitsAndCents | src/MonetaryAmount.ts:15-22 | the amount's whole units are the integer group's value and its cents are the scaled fraction, so the cents are never 1..9 |
| Money.MatchInputSkipsNonDigits | src/MonetaryAmount.ts:8-10 | text without digits in front of the match does not change the match |
| Money.MinusSignIgnored | src/MonetaryAmount.ts:8-13 | a leading "-" is ignored: the same match and the same amount |
| Money.MatchInputNoComma | src/MonetaryAmount.ts:8 | with no comma after the first digit run, the whole run is the integer group and the fraction is empty |
| Money.MatchInputWithFraction | src/MonetaryAmount.ts:8 | a digit run, a comma, up to two digits and then any text that does not start with a further digit of a short fraction match as exactly that run and those digits |
| Money.TrailingTextIgnored | src/MonetaryAmount.ts:8-22 | a third fraction digit or trailing words are ignored: "10,505" and "10,5 reais" both read as 1050 |
| Money.ParseDigitsCommaCents | src/MonetaryAmount.ts:15-22 | non-digit lead, units, comma and two digits read as units * 100 plus the scaled cents |
| Money.ParseStopsAtDot | src/MonetaryAmount.ts:8 | a "." ends the match: only the digits before it count, as whole units |
| Money.MatchInputFractionExamples | src/MonetaryAmount.ts:8 | "10,5", "10,50" and "10,05" split into "10" and the typed fraction digits |
| Money.MatchInputWholeExamples | src/MonetaryAmount.ts:8 | "10,", "10" and "1050" have an empty fraction group |
| Money.CentsExamples | src/MonetaryAmount.ts:15-22 | fractions "5", "50" and "05" all give 1050 for units "10"; no fraction gives units * 100 |
| Money.ParseInputExamples | src/MonetaryAmount.ts:7-25 | "10,5", "10,50" and "10,05" read as 1050; "10" and "10," as 1000; "1050" as 105000 |
| Money.ParseString | src/MonetaryAmount.ts:27-37 | text shorter than two characters is refused with its own message; a text is accepted exactly when it has at least two characters and is a digit string, optionally after one "+" or "-"; it reads as the digits' value, negated after "-" |
| Money.ToCanonicalString | src/MonetaryAmount.ts:55 | the printed text reads back as the value, and has at least two characters exactly when the value is not 0..9 |
| Money.FromCanonicalString | src/MonetaryAmount.ts:53 | accepts exactly the texts of at least two characters that `BigInt` reads, with `BigInt`'s value |
| Money.CanonicalRoundTrip | src/MonetaryAmount.ts:53-55 | printing then parsing gives back every value outside 0..9, and refuses the values 0..9 |
| Money.LocaleString | src/MonetaryAmount.ts:48 | removing the "." separators gives the digits of n back, and the text is the plain digits exactly when n < 1000 |
| Money.GroupThousands | src/MonetaryAmount.ts:48 | up to three digits are printed without a separator |
| Money.GroupThousandsUngroups | src/MonetaryAmount.ts:48 | removing the "." separators from the grouped text gives the digits back |
| Money.GroupThousandsLeadingGroup | src/MonetaryAmount.ts:48 | more than three digits print as a leading group of one to three digits followed by "." |
| Money.PadStart | src/MonetaryAmount.ts:41 | `padStart(n, c)` has length max(len, n), ends with the original text, and every character before it is `c` |
| Money.TwoDigits | src/MonetaryAmount.ts:50 | two digit characters whose value is the cents |
| Money.FormatSmall | src/MonetaryAmount.ts:40-42 | 0..9 print as the optional "R$ ", "0," and two digits |
| Money.FormatThrows | src/MonetaryAmount.ts:44-46 | -9..-1 make the destructuring of the failed match throw |
| Money.MatchCents | src/MonetaryAmount.ts:44-46 | `/(\d*)(\d{2})/` matches exactly when the text has two adjacent digits, and then both groups are digits and the second has two |
| Money.MatchCentsOfIntToString | src/MonetaryAmount.ts:44-46 | for a magnitude of at least 10, `/(\d*)(\d{2})/` splits its digits into all but the last two and the last two |
| Money.FormatLarge | src/MonetaryAmount.ts:44-50 | outside -9..9, the text is the prefix, "-" when negative, the grouped whole units, "," and the two-digit cents |
| Money.FormatShape | src/MonetaryAmount.ts:39-51 | `Money.Format`, the formatter, throws exactly on -9..-1, and otherwise prints (prefix, sign, grouped `\|v\| div 100`, ",", two digits of `\|v\| mod 100`) |
| Money.PrefixHasNoDigit | src/MonetaryAmount.ts:50 | the optional "R$ " and "-" contain no digit |
| Money.WholeAndCents | src/MonetaryAmount.ts:18-22 | units * 100 plus the scaled cents gives n back exactly when the cents are 0 or at least 10 |
| Money.ReadBackCents | src/MonetaryAmount.ts:18-22 | the value read back from the formatted text equals v exactly when v >= 0 and its cents are 0 or at least 10 |
| Money.ParseFormattedUngrouped | src/view/accounts/EditAccountView.tsx:44-53 | formatted text with fewer than four digits of units reads back as units * 100 plus the scaled cents |
| Money.ParseFormattedGrouped | src/view/accounts/EditAccountView.tsx:44-53 | once the units are grouped with ".", the text reads back as at most 999 units |
| Money.ReadUngrouped | src/view/accounts/EditAccountView.tsx:44-53 | `formatMonetaryAmount(v)` succeeds and, without a "." separator, reads back as the magnitude of v with the cents tenths-scaled |
| Money.FormatThenParseUngrouped | src/view/accounts/EditAccountView.tsx:44-53 | below 1000 units, the edit view's round trip keeps v exactly when v >= 0 and its cents are 0 or at least 10 |
| Money.FormatThenParseGrouped | src/view/accounts/EditAccountView.tsx:44-53 | from 1000 units on, the round trip returns less than 100000 cents |
| Money.FormatThenParseInput | src/view/accounts/EditAccountView.tsx:44-53 | `parseMonetaryAmountFromInput(formatMonetaryAmount(v))` is v exactly when 0 <= v < 100000 and the cents of v are 0 or at least 10 |
| Accounts.AccountTypeName | src/database/Account.ts:4-7 | the enum text is "Ativo" or "Passivo" |
| Accounts.ParseAccountType | src/database/Account.ts:4-7 | accepts exactly the two literals, as the member with that text |
| Accounts.AccountTypeRoundTrip | src/database/Account.ts:4-7 | every member's text parses back to it |
| Accounts.DecodeAccount | src/database/Account.ts:13-18 | decodes exactly when all four fields are present, the balance passes the canonical parser and the type is a literal; copies id and name and reads the balance with `BigInt` |
| Accounts.EncodeAccount | src/database/Account.ts:22-25 | copies id, name and type and writes the balance as text `BigInt` reads back |
| Accounts.AccountRoundTrip | src/database/Account.ts:13-25 | the document of an account decodes to that account when its balance is outside 0..9 cents, and does not decode when its balance is 0..9 cents |
| Accounts.ShortBalanceRejected | src/database/Account.ts:16 | a balance text shorter than two characters never decodes |
| Accounts.StoredWithoutTypeNotDecoded | src/database/Account.ts:29-51 | a document `Accounts.CollectionAccepts` (the collection's required fields and id length) accepts without a type cannot be decoded |
| Accounts.StoredButNotDecodedExample | src/database/Account.ts:29-51 | a concrete such document |
| Transactions.ExternalTypeName | src/database/Transaction.ts:25-28 | the enum text is "Receita" or "Despesa" |
| Transactions.ParseExternalType | src/database/Transaction.ts:25-28 | accepts exactly the two literals, as the member with that text |
| Transactions.ExternalTypeRoundTrip | src/database/Transaction.ts:25-28 | every member's text parses back to it |
| Transactions.IsTransferTransaction | src/database/Transaction.ts:62-64 | the `fromId` presence test holds exactly on transfers |
| Transactions.IsExternalTransaction | src/database/Transaction.ts:66-68 | the `accountId` presence test holds exactly on external transactions |
| Transactions.ExactlyOneShape | src/database/Transaction.ts:62-68 | on a decoded transaction exactly one of the field-presence tests holds, and it names the variant |
| Transactions.DecodeTransfer | src/database/Transaction.ts:34-41 | decodes exactly when every field is present, the three ids are UUIDs, the date text parses and the value text has at least two characters that `BigInt` reads; the result is a transfer with the id, description and both account ids copied, the parsed date, and the value `BigInt` reads |
| Transactions.DecodeExternal | src/database/Transaction.ts:43-50 | decodes exactly when every field is present, both ids are UUIDs, the date text parses, the value text has at least two characters that `BigInt` reads and the type is "Receita" or "Despesa"; the result is an external transaction with the id, description and account id copied, the parsed date, the value `BigInt` reads and the type whose name is the text |
| Transactions.DecodeTransaction | src/database/Transaction.ts:52-55 | decodes when either shape does, as the transfer when the transfer shape decodes |
| Transactions.EncodeTransaction | src/database/Transaction.ts:71-92 | succeeds exactly when the ids are UUIDs; copies id and description, prints the date and writes the value as text `BigInt` reads back; the variant's own fields only |
| Transactions.TransactionRoundTrip | src/database/Transaction.ts:34-92 | when the date text reads back, the encoding of a transaction decodes to that transaction if its value is outside 0..9 cents, and does not decode if its value is 0..9 cents |
| Transactions.BothShapesDecodeAsTransfer | src/database/Transaction.ts:52-55 | a record fitting both shapes decodes as a transfer |
| Transactions.DecodedIsStorable | src/database/Transaction.ts:96-135 | whatever decodes satisfies `Transactions.CollectionAccepts`, the collection's required fields and id length |
| Transactions.StoredButNotDecodedExample | src/database/Transaction.ts:96-135 | the collection accepts a record holding only the required fields, which neither shape decodes |
| Transactions.ShortValueRejected | src/database/Transaction.ts:38 | a value text shorter than two characters never decodes |
| BalanceWorker.SortByDate | src/service/balanceWorker.ts:57 | the array ends up ordered by date and is a permutation of what it held |
| BalanceWorker.CalculateBalance | src/service/balanceWorker.ts:51-118 | the result is `BalanceWorker.Balance`: the initial balance plus the signed contributions of the transactions dated on or before the period's end |
| BalanceWorker.DecodeAll | src/service/balanceWorker.ts:29 | the list decodes exactly when every record decodes, element by element |
| BalanceWorker.HandleMessage | src/service/balanceWorker.ts:120-127 | no reply exactly when the account is missing or does not decode or a transaction does not decode; otherwise the reply echoes the `accountId` beside the computed balance |
| BalanceWorker.NetChangeAppend | src/service/balanceWorker.ts:59-115 | `BalanceWorker.NetChange`, the change over two lists in sequence is the sum of their changes |
| BalanceWorker.NetChangePermutation | src/service/balanceWorker.ts:57-115 | reordering the transactions does not change the net change |
| BalanceWorker.NetChangeRemoveAt | src/service/balanceWorker.ts:59-115 | taking one transaction out takes exactly its contribution out |
| BalanceWorker.BalanceOrderIndependent | src/service/balanceWorker.ts:57-115 | the balance does not depend on the order of the input, so the sort changes nothing |
| BalanceWorker.AfterPeriodIgnored | src/service/balanceWorker.ts:62-64 | a transaction dated after the period's end changes nothing, wherever it stands |
| BalanceWorker.PeriodStartIgnored | src/service/balanceWorker.ts:62 | the period's start is never consulted |
| BalanceWorker.UntouchedKeepsInitial | src/service/balanceWorker.ts:59-117 | with no transaction on or before the end that names the account, the balance is the initial balance |
| BalanceWorker.PassivoMirrorsAtivo | src/service/balanceWorker.ts:66-113 | under `BalanceWorker.Contribution`, the same transactions move a liability by the negation of what they move an asset |
| BalanceWorker.ReceitaOpposesDespesa | src/service/balanceWorker.ts:93-113 | income and expense of the same amount contribute opposite amounts |
| BalanceWorker.ReceitaOnAccount | src/service/balanceWorker.ts:94-107 | income adds its value to an asset and subtracts it from a liability |
| BalanceWorker.TransferConserves | src/service/balanceWorker.ts:66-87 | between two distinct accounts of one type a transfer moves the same amount out of one and into the other; it lowers an asset source |
| BalanceWorker.SelfTransferNotNeutral | src/service/balanceWorker.ts:67-77 | a transfer from an account to itself applies only the outgoing rule |
| LegacyCli.ParseCurrency | src/index.ts:13-29 | null exactly when the text has no digit; otherwise the same amount as the web application's loose parser |
| LegacyCli.ParseCurrencyAgrees | src/index.ts:13-29 | the two parsers agree on every text, null standing for the exception |
| LegacyCli.IndexOfAccount | src/storage.ts:13-15 | the first position holding the id, or none when no account has it |
| LegacyCli.AccountById | src/storage.ts:13-15 | finds an account exactly when one has the id; the one found is the first account with that id |
| LegacyCli.TransferDestinations | src/index.ts:143-148 | an id is offered exactly when it belongs to an account and is not the source |
| LegacyCli.Storage.constructor | src/storage.ts:5-6 | the storage holds the loaded accounts and transactions |
| LegacyCli.Storage.GetBalance | src/index.ts:207-237 | the loop computes the initial balance plus the type-blind signed sum over every stored transaction; null-dereference as no result |
| LegacyCli.Storage.CreateAccount | src/index.ts:43-63 | appends an account whose id is the number of accounts before, with the parsed balance; nothing else changes; ids stay positions |
| LegacyCli.Storage.EditAccount | src/index.ts:67-120 | throws a TypeError, changing nothing, exactly when listing the accounts hits a balance on which `formatCurrency` throws or, after a choice other than "Voltar", the chosen account's initial balance is one; otherwise "Voltar" changes nothing and any other choice overwrites the first account with that id in place with the new name, type and parsed balance |
| LegacyCli.Storage.FormatsListing | src/index.ts:71-75 | the choice list can be printed exactly when every account's balance is found and `formatCurrency` succeeds on it |
| LegacyCli.BalanceShown | src/index.ts:74 | one listing entry prints exactly when the account's balance is found and lies outside -9..9 |
| LegacyCli.ListingFormatsIffPrinted | src/index.ts:71-75 | the listing condition holds exactly when `formatCurrency` succeeds on every account's balance |
| LegacyCli.ZeroBalanceBreaksListing | src/index.ts:71-75 | `formatCurrency(0)` throws, so a single account with balance 0 makes the edit menu throw before it shows its choices |
| LegacyCli.Storage.RecordTransfer | src/index.ts:137-173 | appends the transfer from the chosen source to one of the offered destinations with the parsed value |
| LegacyCli.Storage.RecordExternal | src/index.ts:176-203 | appends the income or expense on the chosen account, stamped with the current time |
| LegacyCli.FormatCurrencyShape | src/index.ts:239-245 | `LegacyCli.FormatCurrency` throws exactly on -9..9; otherwise prints the whole units (nothing below 100), "," and two digits of cents, without a sign |
| LegacyCli.FormatCurrencyDropsSign | src/index.ts:239-245 | a negative value prints exactly as its magnitude |
| LegacyCli.FormatCurrencyNoUnits | src/index.ts:242-244 | 10..99 print as "," and the two digits, as in ",50" |
| LegacyCli.FormatCurrencyWithUnits | src/index.ts:239-245 | from 100 on, the text is the units' digits, "," and two digits of cents |
| LegacyCli.UnitsText | src/index.ts:239-245 | the text printed from 100 on, and the groups `parseCurrency`'s pattern captures in it |
| LegacyCli.ReadBackNoUnits | src/index.ts:13-29 | ",xy" is read as xy whole units |
| LegacyCli.ReadBackBelowHundred | src/index.ts:102-114 | the edit menu's default for 10..99 cents (or -99..-10) reads back as 100 times the magnitude |
| LegacyCli.ReadBackFromHundred | src/index.ts:102-114 | the default for a magnitude of at least 100 reads back as its units and its tenths-scaled cents |
| LegacyCli.FormatCurrencyReadBack | src/index.ts:102-114 | outside -9..9 the default text is printed and reads back as `ReadBackValue(v)` |
| LegacyCli.ReadBackValueFixed | src/index.ts:104-114 | the read-back value equals v exactly when v >= 100 and its cents are 0 or at least 10 |
| LegacyCli.EditDefaultKeepsBalance | src/index.ts:102-118 | keeping the default text keeps the balance exactly when v >= 100 and its cents are 0 or at least 10 |
| LegacyCli.LookupByPosition | src/storage.ts:13-15 | with ids numbered by position, the lookup finds the account at that position and nothing outside the range |
| LegacyCli.IndexOfAccountSameIds | src/storage.ts:13-15 | the lookup looks only at ids |
| LegacyCli.LegacyBalance | src/index.ts:207-237 | no balance exactly when no account has the id; otherwise the initial balance of the first account with the id plus the signed sum over every stored transaction |
| LegacyCli.LegacyBalanceIgnoresType | src/index.ts:207-237 | changing an account's type does not change any balance |
| LegacyCli.LegacyNetIgnoresDates | src/index.ts:212-234 | no date filter: restamping transactions leaves the sum unchanged |
| LegacyCli.TransferNeverToSelf | src/index.ts:143-148 | the source is never offered as the destination |
| LegacyCli.TransferNeedsTwoAccounts | src/index.ts:126-148 | a destination exists only when there are at least two accounts |
| LegacyCli.CreateKeepsIdsAreIndices | src/index.ts:56-63 | appending an account numbered by the current length keeps ids equal to positions, and it is found by its id |
| LegacyCli.LiftContribution | src/index.ts:212-234 | within the period, one terminal transaction contributes what the worker gives it for an asset |
| LegacyCli.LiftNet | src/index.ts:207-237 | within the period, the terminal's sum is the worker's net change for an asset |
| LegacyCli.WorkerAgreesForAssets | src/index.ts:207-237 | for an asset with every transaction on or before the period's end, `getBalance` and `calculateBalance` agree |
| LegacyCli.WorkerReversesLiabilities | src/index.ts:207-237 | for a liability, the worker's balance is the initial balance minus the terminal's sum |
| CustomForm.Required | src/component/CustomForm.tsx:155-174 | rejects exactly undefined, null, "" and NaN; keeps the message |
| CustomForm.Pattern | src/component/CustomForm.tsx:176-183 | the verdict is the regular expression's test on the value's text |
| CustomForm.Custom | src/component/CustomForm.tsx:185-190 | the given predicate, unchanged |
| CustomForm.MonetaryAmount | src/component/CustomForm.tsx:192-205 | accepts exactly when the loose parser succeeds with a positive amount |
| CustomForm.Lookup | src/component/CustomForm.tsx:93 | missing exactly when no entry has the key; otherwise the value of an entry with the key |
| CustomForm.Form.constructor | src/component/CustomForm.tsx:51-53 | both dictionaries start empty |
| CustomForm.Form.GetOrCreateFieldSignal | src/component/CustomForm.tsx:92-102 | an existing signal is returned unchanged; a missing one is created once, holding undefined, at the end |
| CustomForm.Form.SetFieldValue | src/component/CustomForm.tsx:110-112 | the field's entry holds the new value, other entries unchanged |
| CustomForm.Form.ReadField | src/component/CustomForm.tsx:136-138 | returns the field's value, or undefined if it had no signal; the signal dictionary is unchanged when the field had a signal, and otherwise gains the entry (name, undefined) at the end |
| CustomForm.Form.RegisterField | src/component/CustomForm.tsx:125-127 | the validators are stored under the field's name when given; otherwise nothing changes |
| CustomForm.Form.Cleanup | src/component/CustomForm.tsx:129-132 | both entries of the field are deleted |
| CustomForm.Form.HandleSubmit | src/component/CustomForm.tsx:55-90 | the values are submitted exactly when no validator of any field fails; otherwise every error is reported |
| CustomForm.PutMissing | src/component/CustomForm.tsx:99 | a new key is appended at the end, keys stay distinct |
| CustomForm.PutTwiceMissing | src/component/CustomForm.tsx:110-112 | creating a signal and then setting it is the same as setting it |
| CustomForm.LookupAfterPut | src/component/CustomForm.tsx:110-112 | after `CustomForm.Put`, a written value is read back; other keys are unaffected |
| CustomForm.LookupAfterRemove | src/component/CustomForm.tsx:129-132 | after deleting with `CustomForm.Remove`, the key is gone and other keys are unaffected |
| CustomForm.PutKeys | src/component/CustomForm.tsx:126 | writing an existing key keeps every key in place; a new key goes at the end |
| CustomForm.PutKeepsUniqueKeys | src/component/CustomForm.tsx:126 | writing keeps keys distinct |
| CustomForm.RemoveKeepsUniqueKeys | src/component/CustomForm.tsx:130-131 | deleting keeps keys distinct and adds no entry |
| CustomForm.FieldErrorsEmpty | src/component/CustomForm.tsx:69-73 | a field yields no error exactly when all its validators accept its value |
| CustomForm.FieldErrorsFromFailures | src/component/CustomForm.tsx:69-73 | every error names the field and carries the message of a validator that rejects the value |
| CustomForm.FieldErrorsCount | src/component/CustomForm.tsx:69-73 | one error per failing validator |
| CustomForm.ErrorsEmpty | src/component/CustomForm.tsx:67-83 | the error list is empty exactly when every validator of every registered field accepts |
| CustomForm.ErrorsAppend | src/component/CustomForm.tsx:68-74 | fields report in dictionary order |
| CustomForm.AmountPatternIsParseable | src/view/transactions/NewTransactionView.tsx:148 | `CustomForm.AmountPattern`, the views' amount pattern, accepts exactly the texts the loose parser reads |
| CustomForm.MonetaryAmountImpliesPattern | src/view/transactions/NewTransactionView.tsx:147-149 | a value `monetaryAmount` accepts also passes the amount pattern |
| CustomForm.ZeroPassesPatternOnly | src/view/transactions/NewTransactionView.tsx:147-149 | "0" and "0,0" pass the pattern but not `monetaryAmount`; "" fails `required` and `monetaryAmount` |
| CustomForm.ZeroExamples | src/MonetaryAmount.ts:8-22 | "0" and "0,0" match and read as 0 |
| CustomForm.UndefinedAmountRejected | src/component/CustomForm.tsx:176-205 | a never-filled field fails the amount pattern and `monetaryAmount` |
| CustomForm.TypeChoiceAcceptsTypes | src/view/transactions/NewTransactionView.tsx:190 | the type choice accepts exactly "Receita" and "Despesa" |
| CustomForm.RequiredAcceptsFalsyValues | src/component/CustomForm.tsx:155-174 | "0", false and 0 are accepted |

## Left out

- Storage and network I/O are not modelled: IndexedDB, RxDB, CouchDB replication, the terminal's JSON file `load`/`save`, and the `new Date()` clock. The account document, the transaction records, the loaded storage and the current time are parameters.
- The worker's message channel and its asynchrony are not modelled; only the reply's shape is. The bridge in `src/service/balance.ts` is not part of this model.
- Dates are integers on one time line, compared with `<=`. Parsing date text (for example with `dayjs` and its validity check) is a parameter `parseDate`, and printing the stored date text is a parameter `formatDate`. `endOf("day")` and the day-month-year period text are not modelled.
- Transactions.IsUuid: `z.string().uuid()` is approximated by five hyphen-separated groups of 8, 4, 4, 4 and 12 hexadecimal digits. Zod's issue objects and error messages are reduced to "does not decode".
- Zod object key order (including `Object.entries` order for integer-like keys) is not modelled; dictionaries keep insertion order.
- `BigInt` is modelled on decimal text only (an optional sign, then digits). Hexadecimal, binary, octal and whitespace-padded forms are not modelled.
- Money.LocaleString: `Number(...).toLocaleString("pt-br")` is modelled as exact grouping in threes with "."; the precision loss of the float conversion above 2^53 is not modelled.
- The terminal's menu prompts, the main loop, the "Sair" option and the prompt validators are not modelled. Each menu method takes what the prompts would return. Its `requires` states what the prompt's validator and choice list guarantee.
- The "Transferência" choice being disabled when there is exactly one account is not modelled as a guard. `LegacyCli.TransferNeedsTwoAccounts` shows that no destination exists in that case.
- The terminal's JSON date round trip through `load` and `save` is not modelled; `LegacyExternal.date` is an integer, which `getBalance` ignores.
- Terminal accounts are values in a sequence; the object aliasing of `getAccountById` followed by field writes is modelled as replacing the found element.
- A form field's signal is modelled as the value it holds. Reactive updates, the `submitting` flag and the promise chaining (`onSubmit` rejections going to `onError`) are not modelled.
- JavaScript numbers held by form fields are modelled as integers or NaN; fractional numbers are not modelled.
- The JSX views and components are not modelled. The edit and new-transaction views appear only through the validators and round trips they use.
