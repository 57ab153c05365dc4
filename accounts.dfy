/** Accounts as stored and as decoded: the `Ativo`/`Passivo` enum, the
    decoded `Account`, its document form (initial balance as the canonical
    integer-cents string) and the looser collection schema. */
module Accounts {
  import opened Wrappers
  import opened Decimal
  import opened Money

  datatype AccountType = Ativo | Passivo

  /** The enum's literal text. */
  function AccountTypeName(t: AccountType): (s: string)
    ensures s == "Ativo" || s == "Passivo"
  {
    match t
    case Ativo => "Ativo"
    case Passivo => "Passivo"
  }

  /** `AccountTypeSchema.parse`: only the two literals are accepted. */
  function ParseAccountType(s: string): (r: Option<AccountType>)
    ensures r.Some? <==> s == "Ativo" || s == "Passivo"
    ensures r.Some? ==> AccountTypeName(r.value) == s
  {
    if s == "Ativo" then Some(Ativo)
    else if s == "Passivo" then Some(Passivo)
    else None
  }

  /** The enum text parses back to the same member. */
  lemma AccountTypeRoundTrip(t: AccountType)
    ensures ParseAccountType(AccountTypeName(t)) == Some(t)
  {
  }

  /** The decoded account (`z.infer<typeof AccountSchema>`); the balance is
      in integer cents. */
  datatype Account = Account(id: string, name: string, initialBalance: int, kind: AccountType)

  /** A stored account document as the collection sees it: every property
      may be absent. The values are the JSON strings. */
  datatype AccountRecord = AccountRecord(
    id: Option<string>, name: Option<string>, initialBalance: Option<string>, kind: Option<string>)

  /** `AccountSchema.parse`: every field must be present, the balance must
      pass the canonical money parser and the type must be one of the two
      literals. */
  function DecodeAccount(r: AccountRecord): (a: Option<Account>)
    ensures a.Some? <==> && r.id.Some? && r.name.Some? && r.initialBalance.Some? && r.kind.Some?
                         && FromCanonicalString(r.initialBalance.value).Ok?
                         && ParseAccountType(r.kind.value).Some?
    ensures a.Some? ==> && a.value.id == r.id.value && a.value.name == r.name.value
                        && ParseBigInt(r.initialBalance.value) == Some(a.value.initialBalance)
                        && AccountTypeName(a.value.kind) == r.kind.value
  {
    if r.id.None? || r.name.None? || r.initialBalance.None? || r.kind.None? then None
    else match (FromCanonicalString(r.initialBalance.value), ParseAccountType(r.kind.value))
      case (Ok(balance), Some(kind)) => Some(Account(r.id.value, r.name.value, balance, kind))
      case _ => None
  }

  /** `AccountDocumentSchema.parse`: the balance becomes its decimal text;
      the other fields are copied. */
  function EncodeAccount(a: Account): (r: AccountRecord)
    ensures r.id == Some(a.id) && r.name == Some(a.name) && r.kind == Some(AccountTypeName(a.kind))
    ensures r.initialBalance.Some? && ParseBigInt(r.initialBalance.value) == Some(a.initialBalance)
  {
    AccountRecord(Some(a.id), Some(a.name), Some(ToCanonicalString(a.initialBalance)),
                  Some(AccountTypeName(a.kind)))
  }

  /** What `AccountCollectionSchema` demands of a document: `id`, `name` and
      `initialBalance` (with an `id` of at most 40 characters). `type` is
      not required. */
  predicate CollectionAccepts(r: AccountRecord)
  {
    r.id.Some? && |r.id.value| <= 40 && r.name.Some? && r.initialBalance.Some?
  }

  /** Encoding then decoding gives the account back, except when its
      initial balance is 0..9 cents: the one-character balance text is
      refused by the canonical parser. */
  lemma AccountRoundTrip(a: Account)
    ensures DecodeAccount(EncodeAccount(a))
         == if 0 <= a.initialBalance <= 9 then None else Some(a)
  {
    CanonicalRoundTrip(a.initialBalance);
  }

  /** A balance text shorter than two characters never decodes. */
  lemma ShortBalanceRejected(r: AccountRecord)
    requires r.initialBalance.Some? && |r.initialBalance.value| < 2
    ensures DecodeAccount(r).None?
  {
  }

  /** Every decoded record has a type, but the collection stores records
      without one: such a record is accepted and cannot be decoded. */
  lemma StoredWithoutTypeNotDecoded(r: AccountRecord)
    requires CollectionAccepts(r) && r.kind.None?
    ensures DecodeAccount(r).None?
  {
  }

  /** A concrete record the collection stores and the decoder refuses. */
  lemma StoredButNotDecodedExample()
    ensures var r := AccountRecord(Some("conta"), Some("Carteira"), Some("1000"), None);
      CollectionAccepts(r) && DecodeAccount(r).None?
  {
  }
}
