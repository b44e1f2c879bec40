/** The transaction-log queries: each one selects the log entries that match a
    criterion and, for the wallet-scoped ones, orders them newest first. */
module TransactionRepository {
  import opened Errors
  import opened Entities

  /** The WHERE clauses the repository declares. An absent transfer id or
      reference selects the entries where that column is NULL, which is how a
      derived query binds a null argument. */
  datatype Criterion =
    | TransferIdIs(transferId: Option<string>)
    | ReferenceIs(reference: Option<string>)
    | WalletIs(walletId: WalletId)
    | WalletAndStatus(walletId: WalletId, status: TransactionStatus)
    | WalletAndDateRange(walletId: WalletId, startDate: int, endDate: int)
    | WalletAndType(walletId: WalletId, txType: TransactionType)

  predicate Matches(c: Criterion, t: Transaction)
  {
    match c
    case TransferIdIs(id) => t.transferId == id
    case ReferenceIs(r) => t.reference == r
    case WalletIs(w) => t.walletId == w
    case WalletAndStatus(w, s) => t.walletId == w && t.status == s
    // BETWEEN is inclusive at both ends
    case WalletAndDateRange(w, lo, hi) => t.walletId == w && lo <= t.createdAt <= hi
    case WalletAndType(w, ty) => t.walletId == w && t.txType == ty
  }

  /** The matching entries, in log order. */
  function Where(log: seq<Transaction>, c: Criterion): (r: seq<Transaction>)
    ensures |r| <= |log|
    ensures forall i :: 0 <= i < |r| ==> Matches(c, r[i])
  {
    if log == [] then []
    else (if Matches(c, log[0]) then [log[0]] else []) + Where(log[1..], c)
  }

  /** Each matching entry is selected as often as it occurs in the log, and
      nothing else is selected. */
  lemma {:induction false} WhereCounts(log: seq<Transaction>, c: Criterion)
    ensures forall t :: multiset(Where(log, c))[t] == if Matches(c, t) then multiset(log)[t] else 0
    ensures forall t :: t in Where(log, c) <==> t in log && Matches(c, t)
  {
    if log != [] {
      WhereCounts(log[1..], c);
      assert log == [log[0]] + log[1..];
    }
  }

  /** Selecting from a concatenation selects from each part in turn. */
  lemma {:induction false} WhereConcat(a: seq<Transaction>, b: seq<Transaction>, c: Criterion)
    ensures Where(a + b, c) == Where(a, c) + Where(b, c)
  {
    if a == [] {
      assert a + b == b;
    } else {
      var head := if Matches(c, a[0]) then [a[0]] else [];
      assert (a + b)[0] == a[0];
      assert (a + b)[1..] == a[1..] + b;
      assert Where(a + b, c) == head + Where(a[1..] + b, c);
      WhereConcat(a[1..], b, c);
      assert head + (Where(a[1..], c) + Where(b, c)) == (head + Where(a[1..], c)) + Where(b, c);
    }
  }

  /** No entry matches, so nothing is selected. */
  lemma {:induction false} WhereNone(log: seq<Transaction>, c: Criterion)
    requires forall i :: 0 <= i < |log| ==> !Matches(c, log[i])
    ensures Where(log, c) == []
  {
    if log != [] {
      WhereNone(log[1..], c);
    }
  }

  ghost predicate SortedByCreatedAtDesc(s: seq<Transaction>)
  {
    forall i, j :: 0 <= i < j < |s| ==> s[i].createdAt >= s[j].createdAt
  }

  /** Places `t` before the first entry not newer than it. */
  function InsertByCreatedAtDesc(t: Transaction, s: seq<Transaction>): (r: seq<Transaction>)
    requires SortedByCreatedAtDesc(s)
    ensures SortedByCreatedAtDesc(r)
    ensures multiset(r) == multiset(s) + multiset{t}
    ensures forall x :: x in r <==> x in s || x == t
    ensures |r| == |s| + 1 && (r[0] == t || (|s| > 0 && r[0] == s[0]))
  {
    if s == [] || t.createdAt >= s[0].createdAt then [t] + s
    else
      var rest := InsertByCreatedAtDesc(t, s[1..]);
      InsertBehindHead(t, s, rest);
      [s[0]] + rest
  }

  /** The recursive step of the insertion: `t` went into the tail, behind the
      newer head `s[0]`. */
  lemma InsertBehindHead(t: Transaction, s: seq<Transaction>, rest: seq<Transaction>)
    requires s != [] && t.createdAt < s[0].createdAt && SortedByCreatedAtDesc(s)
    requires SortedByCreatedAtDesc(rest) && multiset(rest) == multiset(s[1..]) + multiset{t}
    requires |rest| == |s| && (rest[0] == t || (|s| > 1 && rest[0] == s[1]))
    ensures SortedByCreatedAtDesc([s[0]] + rest)
    ensures multiset([s[0]] + rest) == multiset(s) + multiset{t}
    ensures forall x :: x in [s[0]] + rest <==> x in s || x == t
  {
    assert s == [s[0]] + s[1..];
    assert rest[0].createdAt <= s[0].createdAt;
    SortedCons(s[0], rest);
    var r := [s[0]] + rest;
    assert multiset(r) == multiset(s) + multiset{t};
    forall x ensures x in r <==> x in s || x == t {
      assert x in r <==> multiset(r)[x] > 0;
      assert x in s <==> multiset(s)[x] > 0;
    }
  }

  lemma SortedCons(x: Transaction, s: seq<Transaction>)
    requires SortedByCreatedAtDesc(s) && (s == [] || s[0].createdAt <= x.createdAt)
    ensures SortedByCreatedAtDesc([x] + s)
  {
    var r := [x] + s;
    forall i, j | 0 <= i < j < |r| ensures r[i].createdAt >= r[j].createdAt {
      if i > 0 {
        assert r[i] == s[i - 1] && r[j] == s[j - 1];
      } else {
        assert r[j] == s[j - 1];
      }
    }
  }

  /** ORDER BY createdAt DESC; entries with equal timestamps keep their log order. */
  function OrderByCreatedAtDesc(s: seq<Transaction>): (r: seq<Transaction>)
    ensures SortedByCreatedAtDesc(r)
    ensures multiset(r) == multiset(s)
    ensures forall x :: x in r <==> x in s
  {
    if s == [] then []
    else
      assert s == [s[0]] + s[1..];
      InsertByCreatedAtDesc(s[0], OrderByCreatedAtDesc(s[1..]))
  }

  /** `findByTransferId`: the entries carrying that transfer id, in log order
      (how often each is selected is `FindByTransferIdCounts`). */
  function FindByTransferId(log: seq<Transaction>, transferId: Option<string>): (r: seq<Transaction>)
    ensures forall t {:trigger t in r} :: t in r <==> t in log && t.transferId == transferId
  {
    WhereCounts(log, TransferIdIs(transferId));
    Where(log, TransferIdIs(transferId))
  }

  /** Each entry with that transfer id is selected as often as it is logged. */
  lemma FindByTransferIdCounts(log: seq<Transaction>, transferId: Option<string>)
    ensures forall t :: multiset(FindByTransferId(log, transferId))[t]
                        == if t.transferId == transferId then multiset(log)[t] else 0
  {
    WhereCounts(log, TransferIdIs(transferId));
  }

  /** The lookup finds something exactly when some logged entry carries the id. */
  lemma FindByTransferIdNonEmpty(log: seq<Transaction>, transferId: Option<string>)
    ensures FindByTransferId(log, transferId) != [] <==> exists i :: 0 <= i < |log| && log[i].transferId == transferId
  {
    var r := FindByTransferId(log, transferId);
    if r != [] {
      assert r[0] in r;
      var i :| 0 <= i < |log| && log[i] == r[0];
    }
    forall i | 0 <= i < |log| && log[i].transferId == transferId ensures r != [] {
      assert log[i] in r;
    }
  }

  /** `findByReference`: exactly the entries carrying that reference. */
  function FindByReference(log: seq<Transaction>, reference: Option<string>): (r: seq<Transaction>)
    ensures forall t :: t in r <==> t in log && t.reference == reference
    ensures forall t :: multiset(r)[t] == if t.reference == reference then multiset(log)[t] else 0
  {
    WhereCounts(log, ReferenceIs(reference));
    Where(log, ReferenceIs(reference))
  }

  /** `findByWalletIdOrderByCreatedAtDesc`: every entry of the wallet, newest first. */
  function FindByWalletIdOrderByCreatedAtDesc(log: seq<Transaction>, walletId: WalletId): (r: seq<Transaction>)
    ensures forall t :: t in r <==> t in log && t.walletId == walletId
    ensures forall t :: multiset(r)[t] == if t.walletId == walletId then multiset(log)[t] else 0
    ensures SortedByCreatedAtDesc(r)
  {
    WhereCounts(log, WalletIs(walletId));
    OrderByCreatedAtDesc(Where(log, WalletIs(walletId)))
  }

  /** `findByWalletIdAndStatusOrderByCreatedAtDesc`. */
  function FindByWalletIdAndStatusOrderByCreatedAtDesc(log: seq<Transaction>, walletId: WalletId, status: TransactionStatus): (r: seq<Transaction>)
    ensures forall t :: t in r <==> t in log && t.walletId == walletId && t.status == status
    ensures forall t :: multiset(r)[t] == if t.walletId == walletId && t.status == status then multiset(log)[t] else 0
    ensures SortedByCreatedAtDesc(r)
  {
    WhereCounts(log, WalletAndStatus(walletId, status));
    OrderByCreatedAtDesc(Where(log, WalletAndStatus(walletId, status)))
  }

  /** `findByWalletIdAndDateRange`: createdAt BETWEEN startDate AND endDate, newest first. */
  function FindByWalletIdAndDateRange(log: seq<Transaction>, walletId: WalletId, startDate: int, endDate: int): (r: seq<Transaction>)
    ensures forall t :: t in r <==> t in log && t.walletId == walletId && startDate <= t.createdAt <= endDate
    ensures forall t :: multiset(r)[t] == if t.walletId == walletId && startDate <= t.createdAt <= endDate then multiset(log)[t] else 0
    ensures SortedByCreatedAtDesc(r)
    ensures startDate > endDate ==> r == []
  {
    WhereCounts(log, WalletAndDateRange(walletId, startDate, endDate));
    OrderByCreatedAtDesc(Where(log, WalletAndDateRange(walletId, startDate, endDate)))
  }

  /** `findByWalletIdAndType`: CREDITs or DEBITs of one wallet, newest first. */
  function FindByWalletIdAndType(log: seq<Transaction>, walletId: WalletId, txType: TransactionType): (r: seq<Transaction>)
    ensures forall t :: t in r <==> t in log && t.walletId == walletId && t.txType == txType
    ensures forall t :: multiset(r)[t] == if t.walletId == walletId && t.txType == txType then multiset(log)[t] else 0
    ensures SortedByCreatedAtDesc(r)
  {
    WhereCounts(log, WalletAndType(walletId, txType));
    OrderByCreatedAtDesc(Where(log, WalletAndType(walletId, txType)))
  }

  /** The wallet's typed views split its full history: every entry of the
      wallet is either a CREDIT or a DEBIT. */
  lemma TypesPartitionWalletHistory(log: seq<Transaction>, walletId: WalletId)
    ensures multiset(FindByWalletIdOrderByCreatedAtDesc(log, walletId))
         == multiset(FindByWalletIdAndType(log, walletId, CREDIT)) + multiset(FindByWalletIdAndType(log, walletId, DEBIT))
  {
    var all := multiset(FindByWalletIdOrderByCreatedAtDesc(log, walletId));
    var split := multiset(FindByWalletIdAndType(log, walletId, CREDIT)) + multiset(FindByWalletIdAndType(log, walletId, DEBIT));
    forall t: Transaction ensures all[t] == split[t] {
      TypesPartitionAt(log, walletId, t);
    }
  }

  lemma TypesPartitionAt(log: seq<Transaction>, walletId: WalletId, t: Transaction)
    ensures multiset(FindByWalletIdOrderByCreatedAtDesc(log, walletId))[t]
         == multiset(FindByWalletIdAndType(log, walletId, CREDIT))[t] + multiset(FindByWalletIdAndType(log, walletId, DEBIT))[t]
  {
    var all := FindByWalletIdOrderByCreatedAtDesc(log, walletId);
    var credits := FindByWalletIdAndType(log, walletId, CREDIT);
    var debits := FindByWalletIdAndType(log, walletId, DEBIT);
    if t.txType == CREDIT {
      assert multiset(debits)[t] == 0;
      assert multiset(all)[t] == multiset(credits)[t];
    } else {
      assert multiset(credits)[t] == 0;
      assert multiset(all)[t] == multiset(debits)[t];
    }
  }
}
