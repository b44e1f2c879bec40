/** The persisted entities: wallets, transactions and customers. */
module Entities {
  import opened Errors

  type WalletId = int
  type CustomerId = int

  /** Money counted in units of 0.0001, the scale of every DECIMAL(19,4) column. */
  type Units = int

  /** One wallet row: its owner and its balance; the id is the key of the wallet map. */
  datatype Wallet = Wallet(owner: CustomerId, balance: Units)

  datatype TransactionType = CREDIT | DEBIT

  datatype TransactionStatus = INITIATED | SUCCESS | FAILED

  /** One row of the transaction log. `createdAt` is the creation timestamp,
      an abstract totally ordered instant. */
  datatype Transaction = Transaction(
    id: string,
    walletId: WalletId,
    amount: Units,
    txType: TransactionType,
    status: TransactionStatus,
    transferId: Option<string>,
    relatedWallet: Option<WalletId>,
    reference: Option<string>,
    createdAt: int)

  /** A stored customer; the store guarantees a non-null email. */
  datatype Customer = Customer(customerId: CustomerId, name: Option<string>, email: string)

  /** A customer as handed to the service: every field may be null. */
  datatype CustomerInput = CustomerInput(customerId: Option<CustomerId>, name: Option<string>, email: Option<string>)

  /** Java's `Character.isWhitespace`: the Unicode space separators except the
      non-breaking ones, plus the ASCII and information-separator controls. */
  predicate IsWhitespace(c: char)
  {
    || c == ' ' || ('\t' <= c <= '\r') || ('\U{1C}' <= c <= '\U{1F}')
    || c == '\U{1680}' || ('\U{2000}' <= c <= '\U{2006}') || ('\U{2008}' <= c <= '\U{200A}')
    || c == '\U{2028}' || c == '\U{2029}' || c == '\U{205F}' || c == '\U{3000}'
  }

  /** Java's `String.isBlank`: empty or only whitespace. */
  predicate IsBlank(s: string): (b: bool)
    ensures |s| == 0 ==> b
    ensures |s| > 0 ==> (b <==> IsWhitespace(s[0]) && IsBlank(s[1..]))
  {
    forall i :: 0 <= i < |s| ==> IsWhitespace(s[i])
  }

  /** `s == null || s.isBlank()`. */
  predicate NullOrBlank(s: Option<string>): (b: bool)
    ensures s.None? ==> b
    ensures !b ==> exists i :: 0 <= i < |s.value| && !IsWhitespace(s.value[i])
  {
    s.None? || IsBlank(s.value)
  }
}
