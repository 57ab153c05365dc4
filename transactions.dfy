/** Transactions as stored and as decoded: a transfer between two accounts
    or an external income/expense on one account, told apart by which
    fields the object carries. */
module Transactions {
  import opened Wrappers
  import opened Decimal
  import opened Money

  datatype ExternalTransactionType = Receita | Despesa

  function ExternalTypeName(t: ExternalTransactionType): (s: string)
    ensures s == "Receita" || s == "Despesa"
  {
    match t
    case Receita => "Receita"
    case Despesa => "Despesa"
  }

  /** `ExternalTransactionTypeSchema.parse`. */
  function ParseExternalType(s: string): (r: Option<ExternalTransactionType>)
    ensures r.Some? <==> s == "Receita" || s == "Despesa"
    ensures r.Some? ==> ExternalTypeName(r.value) == s
  {
    if s == "Receita" then Some(Receita)
    else if s == "Despesa" then Some(Despesa)
    else None
  }

  /** A decoded transaction. Dates are instants on one integer time line;
      values are integer cents. */
  datatype Transaction =
    | Transfer(id: string, date: int, description: string, value: int, fromId: string, toId: string)
    | External(id: string, date: int, description: string, value: int, accountId: string,
               kind: ExternalTransactionType)

  /** The property names the decoded object carries (zod objects drop keys
      their schema does not list). */
  function Keys(t: Transaction): set<string>
  {
    match t
    case Transfer(_, _, _, _, _, _) => {"id", "date", "description", "value", "fromId", "toId"}
    case External(_, _, _, _, _, _) => {"id", "date", "description", "value", "accountId", "type"}
  }

  /** `isTransferTransaction`: `"fromId" in transaction`. */
  predicate IsTransferTransaction(t: Transaction): (b: bool)
    ensures b <==> t.Transfer?
  {
    "fromId" in Keys(t)
  }

  /** `isExternalTransaction`: `"accountId" in transaction`. */
  predicate IsExternalTransaction(t: Transaction): (b: bool)
    ensures b <==> t.External?
  {
    "accountId" in Keys(t)
  }

  /** The field-presence tests tell the variants apart: exactly one holds,
      and it names the variant. */
  lemma ExactlyOneShape(t: Transaction)
    ensures IsTransferTransaction(t) <==> t.Transfer?
    ensures IsExternalTransaction(t) <==> t.External?
    ensures IsTransferTransaction(t) != IsExternalTransaction(t)
  {
    assert "fromId" != "accountId";
    assert "fromId" != "type" && "accountId" != "toId";
  }

  predicate IsHexDigit(c: char)
  {
    '0' <= c <= '9' || 'a' <= c <= 'f' || 'A' <= c <= 'F'
  }

  /** `z.string().uuid()`: five hyphen-separated groups of 8, 4, 4, 4 and
      12 hexadecimal digits. */
  predicate IsUuid(s: string)
  {
    && |s| == 36
    && forall i :: 0 <= i < |s| ==>
         if i == 8 || i == 13 || i == 18 || i == 23 then s[i] == '-' else IsHexDigit(s[i])
  }

  /** A stored transaction document as the collection sees it: every
      property may be absent. The values are the JSON strings. */
  datatype TransactionRecord = TransactionRecord(
    id: Option<string>, date: Option<string>, description: Option<string>, value: Option<string>,
    fromId: Option<string>, toId: Option<string>, accountId: Option<string>, kind: Option<string>)

  /** `TransferTransactionSchema.parse`. `parseDate` stands for
      `dayjs(text)` followed by the validity check: `None` for
      an invalid date. */
  function DecodeTransfer(r: TransactionRecord, parseDate: string -> Option<int>): (t: Option<Transaction>)
    ensures t.Some? <==>
      && r.id.Some? && IsUuid(r.id.value) && r.date.Some? && parseDate(r.date.value).Some?
      && r.description.Some? && r.value.Some?
      && |r.value.value| >= 2 && ParseBigInt(r.value.value).Some?
      && r.fromId.Some? && IsUuid(r.fromId.value) && r.toId.Some? && IsUuid(r.toId.value)
    ensures t.Some? ==> && t.value.Transfer?
                        && t.value.id == r.id.value && t.value.description == r.description.value
                        && Some(t.value.date) == parseDate(r.date.value)
                        && ParseBigInt(r.value.value) == Some(t.value.value)
                        && t.value.fromId == r.fromId.value && t.value.toId == r.toId.value
  {
    if && r.id.Some? && IsUuid(r.id.value) && r.date.Some? && parseDate(r.date.value).Some?
       && r.description.Some? && r.value.Some? && FromCanonicalString(r.value.value).Ok?
       && r.fromId.Some? && IsUuid(r.fromId.value) && r.toId.Some? && IsUuid(r.toId.value)
    then Some(Transfer(r.id.value, parseDate(r.date.value).value, r.description.value,
                       FromCanonicalString(r.value.value).value, r.fromId.value, r.toId.value))
    else None
  }

  /** `ExternalTransactionSchema.parse`. */
  function DecodeExternal(r: TransactionRecord, parseDate: string -> Option<int>): (t: Option<Transaction>)
    ensures t.Some? <==>
      && r.id.Some? && IsUuid(r.id.value) && r.date.Some? && parseDate(r.date.value).Some?
      && r.description.Some? && r.value.Some?
      && |r.value.value| >= 2 && ParseBigInt(r.value.value).Some?
      && r.accountId.Some? && IsUuid(r.accountId.value)
      && r.kind.Some? && (r.kind.value == "Receita" || r.kind.value == "Despesa")
    ensures t.Some? ==> && t.value.External?
                        && t.value.id == r.id.value && t.value.description == r.description.value
                        && Some(t.value.date) == parseDate(r.date.value)
                        && ParseBigInt(r.value.value) == Some(t.value.value)
                        && t.value.accountId == r.accountId.value
                        && ExternalTypeName(t.value.kind) == r.kind.value
  {
    if && r.id.Some? && IsUuid(r.id.value) && r.date.Some? && parseDate(r.date.value).Some?
       && r.description.Some? && r.value.Some? && FromCanonicalString(r.value.value).Ok?
       && r.accountId.Some? && IsUuid(r.accountId.value) && r.kind.Some?
       && ParseExternalType(r.kind.value).Some?
    then Some(External(r.id.value, parseDate(r.date.value).value, r.description.value,
                       FromCanonicalString(r.value.value).value, r.accountId.value,
                       ParseExternalType(r.kind.value).value))
    else None
  }

  /** `TransactionSchema.parse`: the union tries the transfer shape first. */
  function DecodeTransaction(r: TransactionRecord, parseDate: string -> Option<int>): (t: Option<Transaction>)
    ensures t.Some? <==> DecodeTransfer(r, parseDate).Some? || DecodeExternal(r, parseDate).Some?
    ensures t.Some? && t.value.Transfer? ==> t == DecodeTransfer(r, parseDate)
    ensures t.Some? && t.value.External? ==> t == DecodeExternal(r, parseDate)
  {
    var transfer := DecodeTransfer(r, parseDate);
    if transfer.Some? then transfer else DecodeExternal(r, parseDate)
  }

  /** `TransactionDocumentSchema.parse`: the transfer document shape is
      tried first; it needs `fromId`, which an external transaction lacks.
      Ids must be UUIDs; the date is printed by `formatDate` (standing for
      `format("YYYY-MM-DD")`) and the value becomes its decimal text. */
  function EncodeTransaction(t: Transaction, formatDate: int -> string): (r: Option<TransactionRecord>)
    ensures r.Some? <==> IsUuid(t.id) && (if t.Transfer? then IsUuid(t.fromId) && IsUuid(t.toId)
                                           else IsUuid(t.accountId))
    ensures r.Some? ==> && r.value.id == Some(t.id) && r.value.description == Some(t.description)
                        && r.value.date == Some(formatDate(t.date))
                        && r.value.value.Some? && ParseBigInt(r.value.value.value) == Some(t.value)
    ensures r.Some? && t.Transfer? ==>
      && r.value.fromId == Some(t.fromId) && r.value.toId == Some(t.toId)
      && r.value.accountId.None? && r.value.kind.None?
    ensures r.Some? && t.External? ==>
      && r.value.accountId == Some(t.accountId) && r.value.kind == Some(ExternalTypeName(t.kind))
      && r.value.fromId.None? && r.value.toId.None?
  {
    match t
    case Transfer(id, date, description, value, fromId, toId) =>
      if IsUuid(id) && IsUuid(fromId) && IsUuid(toId) then
        Some(TransactionRecord(Some(id), Some(formatDate(date)), Some(description),
                               Some(ToCanonicalString(value)), Some(fromId), Some(toId), None, None))
      else None
    case External(id, date, description, value, accountId, kind) =>
      if IsUuid(id) && IsUuid(accountId) then
        Some(TransactionRecord(Some(id), Some(formatDate(date)), Some(description),
                               Some(ToCanonicalString(value)), None, None, Some(accountId),
                               Some(ExternalTypeName(kind))))
      else None
  }

  /** What `TransactionCollectionSchema` demands: `id` (at most 40
      characters), `date`, `description` and `value`. The variant fields
      are all optional at this level. */
  predicate CollectionAccepts(r: TransactionRecord)
  {
    r.id.Some? && |r.id.value| <= 40 && r.date.Some? && r.description.Some? && r.value.Some?
  }

  // ---------------------------------------------------------------------
  // Lemmas
  // ---------------------------------------------------------------------

  lemma ExternalTypeRoundTrip(t: ExternalTransactionType)
    ensures ParseExternalType(ExternalTypeName(t)) == Some(t)
  {
  }

  /** Encoding and decoding again returns the transaction, provided the
      date text reads back as the same instant, except when the value is
      0..9 cents, whose one-character text the canonical parser refuses. */
  lemma TransactionRoundTrip(t: Transaction, parseDate: string -> Option<int>, formatDate: int -> string)
    requires EncodeTransaction(t, formatDate).Some?
    requires parseDate(formatDate(t.date)) == Some(t.date)
    ensures DecodeTransaction(EncodeTransaction(t, formatDate).value, parseDate)
         == if 0 <= t.value <= 9 then None else Some(t)
  {
    var r := EncodeTransaction(t, formatDate).value;
    CanonicalRoundTrip(t.value);
    ExternalTypeRoundTrip(if t.External? then t.kind else Receita);
    assert r.value == Some(ToCanonicalString(t.value));
  }

  /** A record that fits both shapes decodes as a transfer: the union
      lists the transfer schema first. */
  lemma BothShapesDecodeAsTransfer(r: TransactionRecord, parseDate: string -> Option<int>)
    requires DecodeTransfer(r, parseDate).Some? && DecodeExternal(r, parseDate).Some?
    ensures DecodeTransaction(r, parseDate).Some? && DecodeTransaction(r, parseDate).value.Transfer?
  {
  }

  /** Whatever decodes is acceptable to the collection; a UUID has 36
      characters. */
  lemma DecodedIsStorable(r: TransactionRecord, parseDate: string -> Option<int>)
    requires DecodeTransaction(r, parseDate).Some?
    ensures CollectionAccepts(r)
  {
  }

  /** The converse fails: the collection stores a record holding only the
      required fields, which neither shape decodes. */
  lemma StoredButNotDecodedExample(parseDate: string -> Option<int>)
    ensures var r := TransactionRecord(Some("t1"), Some("2024-01-31"), Some("Mercado"), Some("1050"),
                                       None, None, None, None);
      CollectionAccepts(r) && DecodeTransaction(r, parseDate).None?
  {
  }

  /** A value text shorter than two characters never decodes. */
  lemma ShortValueRejected(r: TransactionRecord, parseDate: string -> Option<int>)
    requires r.value.Some? && |r.value.value| < 2
    ensures DecodeTransaction(r, parseDate).None?
  {
  }
}
