/** The wallet ledger engine of `WalletService`: wallet creation, deposit,
    withdrawal and the two-sided transfer, each committing its whole effect or
    failing with the state untouched. */
module WalletService {
  import opened Errors
  import opened Entities
  import opened Money
  import opened TransactionRepository
  import CustomerService

  // ---------------------------------------------------------------------------
  // Balances

  /** The wallet map after `id`'s balance moved by `delta` (`setBalance` + `save`):
      only the named wallet's balance moves, by exactly `delta`; its owner and
      every other wallet stay as they were. */
  function Adjust(wallets: map<WalletId, Wallet>, id: WalletId, delta: Units): (after: map<WalletId, Wallet>)
    requires id in wallets
    ensures after.Keys == wallets.Keys
    ensures after[id].balance == wallets[id].balance + delta
    ensures after[id].owner == wallets[id].owner
    ensures forall k :: k in wallets && k != id ==> after[k] == wallets[k]
  {
    wallets[id := wallets[id].(balance := wallets[id].balance + delta)]
  }

  /** Moving a balance keeps the set of wallets and their owners. */
  lemma AdjustKeepsOwners(wallets: map<WalletId, Wallet>, id: WalletId, delta: Units)
    requires id in wallets
    ensures Adjust(wallets, id, delta).Keys == wallets.Keys
    ensures OwnersUnique(wallets) ==> OwnersUnique(Adjust(wallets, id, delta))
  {
    var after := Adjust(wallets, id, delta);
    if OwnersUnique(wallets) {
      forall a, b | a in after && b in after && a != b ensures OwnerOf(after, a) != OwnerOf(after, b) {
        assert OwnerOf(wallets, a) != OwnerOf(wallets, b);
      }
    }
  }

  /** Sum of all balances. */
  ghost function TotalBalance(wallets: map<WalletId, Wallet>): int
    decreases |wallets|
  {
    if |wallets| == 0 then 0
    else
      var id := SomeWallet(wallets);
      wallets[id].balance + TotalBalance(wallets - {id})
  }

  /** Some key of a non-empty wallet map; which one does not matter. */
  ghost function SomeWallet(wallets: map<WalletId, Wallet>): (id: WalletId)
    requires |wallets| != 0
    ensures id in wallets
  {
    NonEmptyHasWallet(wallets);
    var id :| id in wallets;
    id
  }

  lemma NonEmptyHasWallet(wallets: map<WalletId, Wallet>)
    requires |wallets| != 0
    ensures exists id :: id in wallets
  {
    KeylessIsEmpty(wallets);
  }

  lemma KeylessIsEmpty(wallets: map<WalletId, Wallet>)
    ensures (forall id :: id !in wallets) ==> |wallets| == 0
  {
    if forall id :: id !in wallets {
      assert wallets == map[];
    }
  }

  /** The total splits off any one wallet, whichever the definition picked first. */
  lemma {:induction false} TotalBalanceWithout(wallets: map<WalletId, Wallet>, id: WalletId)
    requires id in wallets
    ensures TotalBalance(wallets) == wallets[id].balance + TotalBalance(wallets - {id})
    decreases |wallets|
  {
    var j := SomeWallet(wallets);
    assert TotalBalance(wallets) == wallets[j].balance + TotalBalance(wallets - {j});
    if j != id {
      var rest := wallets - {j} - {id};
      assert wallets - {id} - {j} == rest;
      assert |wallets - {j}| < |wallets| && |wallets - {id}| < |wallets|;
      TotalBalanceWithout(wallets - {j}, id);
      TotalBalanceWithout(wallets - {id}, j);
    }
  }

  /** Moving one balance by `delta` moves the total by exactly `delta`. */
  lemma TotalBalanceAdjust(wallets: map<WalletId, Wallet>, id: WalletId, delta: Units)
    requires id in wallets
    ensures TotalBalance(Adjust(wallets, id, delta)) == TotalBalance(wallets) + delta
  {
    var after := Adjust(wallets, id, delta);
    TotalBalanceWithout(wallets, id);
    TotalBalanceWithout(after, id);
    assert after - {id} == wallets - {id};
  }

  /** A transfer's two balance updates leave the sum of all balances as it was. */
  lemma TransferConservesTotal(wallets: map<WalletId, Wallet>, fromId: WalletId, toId: WalletId, amount: Units)
    requires fromId in wallets && toId in wallets
    ensures TotalBalance(Adjust(Adjust(wallets, fromId, -amount), toId, amount)) == TotalBalance(wallets)
  {
    TotalBalanceAdjust(wallets, fromId, -amount);
    TotalBalanceAdjust(Adjust(wallets, fromId, -amount), toId, amount);
  }

  /** Committed balance changes commute: two operations that both commit reach
      the same balances in either order, so the final balance is the initial one
      plus the sum of the committed deltas. */
  lemma AdjustCommutes(wallets: map<WalletId, Wallet>, a: WalletId, x: Units, b: WalletId, y: Units)
    requires a in wallets && b in wallets
    ensures Adjust(Adjust(wallets, a, x), b, y) == Adjust(Adjust(wallets, b, y), a, x)
    ensures a == b ==> Adjust(Adjust(wallets, a, x), b, y) == Adjust(wallets, a, x + y)
  {
  }

  // ---------------------------------------------------------------------------
  // The ledger invariant

  /** Signed effect of one log entry on wallet `id`. */
  function Delta(t: Transaction, id: WalletId): int
  {
    if t.walletId != id then 0
    else if t.txType == CREDIT then t.amount
    else -t.amount
  }

  /** Credits minus debits that the log records for wallet `id`. */
  function Net(log: seq<Transaction>, id: WalletId): int
    decreases |log|
  {
    if log == [] then 0 else Net(log[..|log| - 1], id) + Delta(log[|log| - 1], id)
  }

  lemma NetAppend(log: seq<Transaction>, t: Transaction, id: WalletId)
    ensures Net(log + [t], id) == Net(log, id) + Delta(t, id)
  {
    assert (log + [t])[..|log|] == log;
  }

  /** A wallet nothing was ever posted against has a net of zero. */
  lemma {:induction false} NetOfUntouchedWallet(log: seq<Transaction>, id: WalletId)
    requires forall i :: 0 <= i < |log| ==> log[i].walletId != id
    ensures Net(log, id) == 0
  {
    if log != [] {
      NetOfUntouchedWallet(log[..|log| - 1], id);
    }
  }

  function OwnerOf(wallets: map<WalletId, Wallet>, id: WalletId): CustomerId
    requires id in wallets
  {
    wallets[id].owner
  }

  ghost predicate OwnersUnique(wallets: map<WalletId, Wallet>)
  {
    forall a, b {:trigger OwnerOf(wallets, a), OwnerOf(wallets, b)}
      :: a in wallets && b in wallets && a != b ==> OwnerOf(wallets, a) != OwnerOf(wallets, b)
  }

  /** `walletRepository.existsByCustomerId(customerId)`: COUNT of the
      customer's wallets > 0. */
  predicate OwnsWallet(wallets: map<WalletId, Wallet>, customerId: CustomerId): (b: bool)
    ensures b <==> |set id | id in wallets && wallets[id].owner == customerId| > 0
  {
    OwnersCounted(wallets, customerId);
    exists id {:trigger OwnerOf(wallets, id)} :: id in wallets && OwnerOf(wallets, id) == customerId
  }

  /** Some wallet is the customer's exactly when the set of their wallets is not empty. */
  lemma OwnersCounted(wallets: map<WalletId, Wallet>, customerId: CustomerId)
    ensures (exists id {:trigger OwnerOf(wallets, id)} :: id in wallets && OwnerOf(wallets, id) == customerId)
            <==> |set id | id in wallets && wallets[id].owner == customerId| > 0
  {
    var owned := set id | id in wallets && wallets[id].owner == customerId;
    if !exists id {:trigger OwnerOf(wallets, id)} :: id in wallets && OwnerOf(wallets, id) == customerId {
      forall id ensures id !in owned {
        if id in wallets {
          assert OwnerOf(wallets, id) != customerId;
        }
      }
      assert owned == {};
    }
    forall id | id in wallets && OwnerOf(wallets, id) == customerId ensures |owned| > 0 {
      assert id in owned;
    }
  }

  /** What every persisted record satisfies: it is posted against a known wallet,
      with a strictly positive amount, as SUCCESS, and carries a related wallet
      exactly when it carries a transfer id. */
  ghost predicate WellFormedEntry(t: Transaction, wallets: map<WalletId, Wallet>)
  {
    && t.walletId in wallets
    && t.amount > 0
    && t.status == SUCCESS
    && (t.transferId.Some? <==> t.relatedWallet.Some?)
    && (t.relatedWallet.Some? ==> t.relatedWallet.value in wallets)
  }

  /** The records of one transfer: a DEBIT then a CREDIT of equal amount and
      reference, on two different wallets, each pointing at the other. */
  ghost predicate IsTransferPair(s: seq<Transaction>)
  {
    && |s| == 2
    && s[0].txType == DEBIT && s[1].txType == CREDIT
    && s[0].amount == s[1].amount
    && s[0].reference == s[1].reference
    && s[0].walletId != s[1].walletId
    && s[0].relatedWallet == Some(s[1].walletId)
    && s[1].relatedWallet == Some(s[0].walletId)
  }

  ghost predicate TransfersPaired(log: seq<Transaction>)
  {
    forall i :: 0 <= i < |log| && log[i].transferId.Some? ==> IsTransferPair(FindByTransferId(log, log[i].transferId))
  }

  ghost predicate TxIdsDistinct(log: seq<Transaction>)
  {
    forall i, j :: 0 <= i < j < |log| ==> log[i].id != log[j].id
  }

  /** `id` is not the id of any logged transaction (a fresh UUID). */
  predicate FreshTxId(log: seq<Transaction>, id: string)
  {
    forall i :: 0 <= i < |log| ==> log[i].id != id
  }

  ghost predicate Inv(wallets: map<WalletId, Wallet>, log: seq<Transaction>, nextWalletId: WalletId)
  {
    && nextWalletId > 0
    && (forall id :: id in wallets ==> 0 < id < nextWalletId)
    && OwnersUnique(wallets)
    && (forall id :: id in wallets ==> wallets[id].balance >= 0)
    && (forall i :: 0 <= i < |log| ==> WellFormedEntry(log[i], wallets))
    && (forall id :: id in wallets ==> wallets[id].balance == Net(log, id))
    && TransfersPaired(log)
    && TxIdsDistinct(log)
  }

  lemma CreateWalletKeepsInv(wallets: map<WalletId, Wallet>, log: seq<Transaction>, nextWalletId: WalletId, owner: CustomerId)
    requires Inv(wallets, log, nextWalletId)
    requires !OwnsWallet(wallets, owner)
    ensures nextWalletId !in wallets
    ensures Inv(wallets[nextWalletId := Wallet(owner, 0)], log, nextWalletId + 1)
  {
    var after := wallets[nextWalletId := Wallet(owner, 0)];
    NetOfUntouchedWallet(log, nextWalletId);
    forall a, b | a in after && b in after && a != b ensures OwnerOf(after, a) != OwnerOf(after, b) {
      if a != nextWalletId && b != nextWalletId {
        assert OwnerOf(wallets, a) != OwnerOf(wallets, b);
      } else if a == nextWalletId {
        assert OwnerOf(wallets, b) != owner;
      } else {
        assert OwnerOf(wallets, a) != owner;
      }
    }
    forall i | 0 <= i < |log| ensures WellFormedEntry(log[i], after) {
      assert WellFormedEntry(log[i], wallets);
    }
  }

  /** Appending well-formed records keeps every record of the log well formed,
      as long as the set of wallets is unchanged. */
  lemma AppendKeepsEntriesWellFormed(wallets: map<WalletId, Wallet>, after: map<WalletId, Wallet>,
                                    log: seq<Transaction>, extra: seq<Transaction>)
    requires forall i :: 0 <= i < |log| ==> WellFormedEntry(log[i], wallets)
    requires forall i :: 0 <= i < |extra| ==> WellFormedEntry(extra[i], wallets)
    requires after.Keys == wallets.Keys
    ensures forall i :: 0 <= i < |log + extra| ==> WellFormedEntry((log + extra)[i], after)
  {
    forall i | 0 <= i < |log + extra| ensures WellFormedEntry((log + extra)[i], after) {
      if i < |log| {
        assert (log + extra)[i] == log[i];
        assert WellFormedEntry(log[i], wallets);
      } else {
        assert (log + extra)[i] == extra[i - |log|];
        assert WellFormedEntry(extra[i - |log|], wallets);
      }
    }
  }

  lemma AppendKeepsIdsDistinct(log: seq<Transaction>, extra: seq<Transaction>)
    requires TxIdsDistinct(log) && TxIdsDistinct(extra)
    requires forall j :: 0 <= j < |extra| ==> FreshTxId(log, extra[j].id)
    ensures TxIdsDistinct(log + extra)
  {
    forall i, j | 0 <= i < j < |log + extra| ensures (log + extra)[i].id != (log + extra)[j].id {
      if j >= |log| {
        assert (log + extra)[j] == extra[j - |log|];
        if i < |log| {
          assert FreshTxId(log, extra[j - |log|].id);
          assert (log + extra)[i] == log[i];
        } else {
          assert (log + extra)[i] == extra[i - |log|];
        }
      } else {
        assert (log + extra)[i] == log[i] && (log + extra)[j] == log[j];
      }
    }
  }

  /** Records without a transfer id leave every transfer's lookup as it was. */
  lemma AppendUnpairedKeepsPaired(log: seq<Transaction>, t: Transaction)
    requires TransfersPaired(log) && t.transferId.None?
    ensures TransfersPaired(log + [t])
  {
    var log' := log + [t];
    forall i | 0 <= i < |log'| && log'[i].transferId.Some?
      ensures IsTransferPair(FindByTransferId(log', log'[i].transferId))
    {
      var tid := log'[i].transferId;
      assert i < |log| && log'[i] == log[i];
      WhereConcat(log, [t], TransferIdIs(tid));
      WhereNone([t], TransferIdIs(tid));
    }
  }

  /** A deposit's or withdrawal's single record keeps the invariant. */
  lemma PostKeepsInv(wallets: map<WalletId, Wallet>, log: seq<Transaction>, nextWalletId: WalletId, t: Transaction)
    requires Inv(wallets, log, nextWalletId)
    requires t.walletId in wallets && t.amount > 0 && t.status == SUCCESS
    requires t.transferId.None? && t.relatedWallet.None? && FreshTxId(log, t.id)
    requires t.txType == DEBIT ==> wallets[t.walletId].balance >= t.amount
    ensures Inv(Adjust(wallets, t.walletId, Delta(t, t.walletId)), log + [t], nextWalletId)
  {
    var after := Adjust(wallets, t.walletId, Delta(t, t.walletId));
    var log' := log + [t];
    AdjustKeepsOwners(wallets, t.walletId, Delta(t, t.walletId));
    forall id | id in after ensures after[id].balance == Net(log', id) {
      NetAppend(log, t, id);
    }
    AppendKeepsEntriesWellFormed(wallets, after, log, [t]);
    AppendKeepsIdsDistinct(log, [t]);
    AppendUnpairedKeepsPaired(log, t);
  }

  /** Two records under a transfer id the log has never seen leave every other
      transfer's lookup as it was and form a pair of their own. */
  lemma AppendPairKeepsPaired(log: seq<Transaction>, debit: Transaction, credit: Transaction)
    requires TransfersPaired(log) && IsTransferPair([debit, credit])
    requires debit.transferId.Some? && credit.transferId == debit.transferId
    requires FindByTransferId(log, debit.transferId) == []
    ensures TransfersPaired(log + [debit, credit])
    ensures FindByTransferId(log + [debit, credit], debit.transferId) == [debit, credit]
  {
    var log' := log + [debit, credit];
    FindAfterTransfer(log, debit, credit);
    forall i | 0 <= i < |log'| && log'[i].transferId.Some?
      ensures IsTransferPair(FindByTransferId(log', log'[i].transferId))
    {
      var tid := log'[i].transferId;
      if tid != debit.transferId {
        assert i < |log| && log'[i] == log[i];
        WhereConcat(log, [debit, credit], TransferIdIs(tid));
        WhereNone([debit, credit], TransferIdIs(tid));
      }
    }
  }

  lemma TransferKeepsNet(wallets: map<WalletId, Wallet>, after: map<WalletId, Wallet>,
                         log: seq<Transaction>, log': seq<Transaction>, debit: Transaction, credit: Transaction)
    requires forall id :: id in wallets ==> wallets[id].balance == Net(log, id)
    requires debit.walletId in wallets && credit.walletId in wallets && debit.walletId != credit.walletId
    requires debit.txType == DEBIT && credit.txType == CREDIT && debit.amount == credit.amount
    requires after == Adjust(Adjust(wallets, debit.walletId, -debit.amount), credit.walletId, credit.amount)
    requires log' == log + [debit, credit]
    ensures forall id :: id in after ==> after[id].balance == Net(log', id)
  {
    assert log' == (log + [debit]) + [credit];
    forall id | id in after ensures after[id].balance == Net(log', id) {
      NetAppend(log, debit, id);
      NetAppend(log + [debit], credit, id);
    }
  }

  /** A transfer's DEBIT and CREDIT, appended together, keep the invariant. */
  lemma TransferKeepsInv(wallets: map<WalletId, Wallet>, log: seq<Transaction>, nextWalletId: WalletId,
                         debit: Transaction, credit: Transaction)
    requires Inv(wallets, log, nextWalletId)
    requires debit.walletId in wallets && credit.walletId in wallets
    requires IsTransferPair([debit, credit]) && debit.amount > 0
    requires debit.status == SUCCESS && credit.status == SUCCESS
    requires debit.transferId.Some? && credit.transferId == debit.transferId
    requires FindByTransferId(log, debit.transferId) == []
    requires FreshTxId(log, debit.id) && FreshTxId(log, credit.id) && debit.id != credit.id
    requires wallets[debit.walletId].balance >= debit.amount
    ensures Inv(Adjust(Adjust(wallets, debit.walletId, -debit.amount), credit.walletId, credit.amount),
                log + [debit, credit], nextWalletId)
    ensures FindByTransferId(log + [debit, credit], debit.transferId) == [debit, credit]
  {
    var mid := Adjust(wallets, debit.walletId, -debit.amount);
    var after := Adjust(mid, credit.walletId, credit.amount);
    var log' := log + [debit, credit];
    AdjustKeepsOwners(wallets, debit.walletId, -debit.amount);
    AdjustKeepsOwners(mid, credit.walletId, credit.amount);
    TransferKeepsNet(wallets, after, log, log', debit, credit);
    assert forall id :: id in after ==> after[id].balance >= 0;
    assert WellFormedEntry(debit, wallets) && WellFormedEntry(credit, wallets);
    AppendKeepsEntriesWellFormed(wallets, after, log, [debit, credit]);
    AppendKeepsIdsDistinct(log, [debit, credit]);
    AppendPairKeepsPaired(log, debit, credit);
  }

  /** Right after a transfer, looking its id up returns exactly [debit, credit]. */
  lemma FindAfterTransfer(log: seq<Transaction>, debit: Transaction, credit: Transaction)
    requires debit.transferId.Some? && credit.transferId == debit.transferId
    requires FindByTransferId(log, debit.transferId) == []
    ensures FindByTransferId(log + [debit, credit], debit.transferId) == [debit, credit]
  {
    var c := TransferIdIs(debit.transferId);
    WhereConcat(log, [debit, credit], c);
    assert [debit, credit][1..] == [credit];
  }

  // ---------------------------------------------------------------------------
  // Lock order

  /** The order `transfer` requests the two wallet locks in: the smaller id
      first, whichever wallet is the source. */
  function LockOrder(fromId: WalletId, toId: WalletId): (r: seq<WalletId>)
    requires fromId != toId
    ensures |r| == 2 && r[0] < r[1]
    ensures {r[0], r[1]} == {fromId, toId}
  {
    if fromId < toId then [fromId, toId] else [toId, fromId]
  }

  /** Two transfers naming the same pair in opposite directions request the
      locks in the same order, so neither can wait on the other in a cycle. */
  lemma LockOrderIgnoresDirection(a: WalletId, b: WalletId)
    requires a != b
    ensures LockOrder(a, b) == LockOrder(b, a)
  {
  }

  /** The locks a transfer that reached the locking step has requested: it
      stops after the first request when that wallet does not exist. */
  function TransferLockRequests(wallets: map<WalletId, Wallet>, fromId: WalletId, toId: WalletId): (r: seq<WalletId>)
    requires fromId != toId
    ensures 1 <= |r| <= 2 && r == LockOrder(fromId, toId)[..|r|]
    ensures |r| == 1 <==> r[0] !in wallets
  {
    var order := LockOrder(fromId, toId);
    if order[0] in wallets then order else [order[0]]
  }

  ghost predicate Ascending(s: seq<WalletId>)
  {
    forall i, j :: 0 <= i < j < |s| ==> s[i] < s[j]
  }

  // ---------------------------------------------------------------------------
  // Transfer ids

  /** The correlation id a transfer uses: the caller's unless it is null or blank. */
  function EffectiveTransferId(transferId: Option<string>, generated: string): (r: string)
    ensures NullOrBlank(transferId) ==> r == generated
    ensures !NullOrBlank(transferId) ==> Some(r) == transferId
  {
    if NullOrBlank(transferId) then generated else transferId.value
  }

  /** A supplied, non-blank transfer id that the log already holds. */
  predicate AlreadyProcessed(log: seq<Transaction>, transferId: Option<string>): (b: bool)
    ensures b <==> transferId.Some? && !IsBlank(transferId.value)
                   && exists i :: 0 <= i < |log| && log[i].transferId == transferId
  {
    FindByTransferIdNonEmpty(log, transferId);
    !NullOrBlank(transferId) && FindByTransferId(log, transferId) != []
  }

  // ---------------------------------------------------------------------------
  // Transfer, as a function of the ledger before the call

  /** Every record carries the transfer's amount, its transfer id, the caller's
      reference and the SUCCESS status. */
  ghost predicate RecordsOf(s: seq<Transaction>, amt: Units, tid: string, reference: Option<string>, now: int)
  {
    forall i :: 0 <= i < |s| ==>
      && s[i].amount == amt && s[i].transferId == Some(tid) && s[i].reference == reference
      && s[i].status == SUCCESS && s[i].createdAt == now
  }

  /** What a transfer returns and the wallets and log it leaves behind. */
  datatype TransferOutcome = TransferOutcome(result: Result<seq<Transaction>>,
                                             wallets: map<WalletId, Wallet>, log: seq<Transaction>)

  /** The second half of `transfer`, once the request has passed its checks:
      look both wallets up in lock order, check the source balance, then apply
      both balance updates and append both records. */
  function SettleTransfer(wallets: map<WalletId, Wallet>, log: seq<Transaction>, fromId: WalletId, toId: WalletId,
                          amt: Units, tid: string, reference: Option<string>,
                          debitId: string, creditId: string, now: int): (o: TransferOutcome)
    requires fromId != toId
    ensures o.result.Err? ==> o.wallets == wallets && o.log == log
    ensures LockOrder(fromId, toId)[0] !in wallets
            ==> o.result == Err(NotFound(WalletResource, LockOrder(fromId, toId)[0]))
    ensures LockOrder(fromId, toId)[0] in wallets && LockOrder(fromId, toId)[1] !in wallets
            ==> o.result == Err(NotFound(WalletResource, LockOrder(fromId, toId)[1]))
    ensures fromId in wallets && toId in wallets && wallets[fromId].balance < amt
            ==> o.result == Err(InsufficientFunds(fromId))
    ensures o.result.Ok? <==> fromId in wallets && toId in wallets && wallets[fromId].balance >= amt
    ensures o.result.Ok? ==> && IsTransferPair(o.result.value)
                             && o.log == log + o.result.value
                             && o.wallets.Keys == wallets.Keys
    ensures o.result.Ok? ==> && o.result.value[0].walletId == fromId && o.result.value[1].walletId == toId
                             && o.result.value[0].id == debitId && o.result.value[1].id == creditId
                             && RecordsOf(o.result.value, amt, tid, reference, now)
  {
    var order := LockOrder(fromId, toId);
    if order[0] !in wallets then TransferOutcome(Err(NotFound(WalletResource, order[0])), wallets, log)
    else if order[1] !in wallets then TransferOutcome(Err(NotFound(WalletResource, order[1])), wallets, log)
    else if wallets[fromId].balance < amt then TransferOutcome(Err(InsufficientFunds(fromId)), wallets, log)
    else
      var records := [Transaction(debitId, fromId, amt, DEBIT, SUCCESS, Some(tid), Some(toId), reference, now),
                      Transaction(creditId, toId, amt, CREDIT, SUCCESS, Some(tid), Some(fromId), reference, now)];
      AdjustKeepsOwners(wallets, fromId, -amt);
      AdjustKeepsOwners(Adjust(wallets, fromId, -amt), toId, amt);
      TransferOutcome(Ok(records), Adjust(Adjust(wallets, fromId, -amt), toId, amt), log + records)
  }

  /** `transfer`, check by check: the same-wallet check, the transfer-id check
      and amount normalisation, then the settlement. */
  function TransferSpec(wallets: map<WalletId, Wallet>, log: seq<Transaction>, fromId: WalletId, toId: WalletId,
                        amount: Option<Decimal>, transferId: Option<string>, reference: Option<string>,
                        generatedTransferId: string, debitId: string, creditId: string, now: int): (o: TransferOutcome)
    ensures o.result.Err? ==> o.wallets == wallets && o.log == log
    ensures fromId == toId ==> o.result == Err(BadRequest(WalletsMustDiffer))
    ensures fromId != toId && AlreadyProcessed(log, transferId)
            ==> o.result == Err(DuplicateResource(TransferIdProcessed(transferId.value)))
    ensures fromId != toId && !AlreadyProcessed(log, transferId) && NormalizeAmount(amount).Err?
            ==> o.result == Err(NormalizeAmount(amount).error)
    ensures o.result.Ok? <==> && fromId != toId && !AlreadyProcessed(log, transferId) && NormalizeAmount(amount).Ok?
                              && fromId in wallets && toId in wallets
                              && wallets[fromId].balance >= NormalizeAmount(amount).value
    ensures o.result.Ok? ==> && IsTransferPair(o.result.value)
                             && o.log == log + o.result.value
                             && o.wallets.Keys == wallets.Keys
    ensures o.result.Ok? ==> && o.result.value[0].walletId == fromId && o.result.value[1].walletId == toId
                             && o.result.value[0].id == debitId && o.result.value[1].id == creditId
                             && RecordsOf(o.result.value, NormalizeAmount(amount).value,
                                          EffectiveTransferId(transferId, generatedTransferId), reference, now)
  {
    if fromId == toId then TransferOutcome(Err(BadRequest(WalletsMustDiffer)), wallets, log)
    else if AlreadyProcessed(log, transferId) then
      TransferOutcome(Err(DuplicateResource(TransferIdProcessed(transferId.value))), wallets, log)
    else if NormalizeAmount(amount).Err? then TransferOutcome(Err(NormalizeAmount(amount).error), wallets, log)
    else SettleTransfer(wallets, log, fromId, toId, NormalizeAmount(amount).value,
                        EffectiveTransferId(transferId, generatedTransferId), reference, debitId, creditId, now)
  }

  /** A settlement moves the amount from the source to the destination and
      leaves every other wallet, and the sum of all balances, as it was. */
  lemma SettleMovesAmount(wallets: map<WalletId, Wallet>, log: seq<Transaction>, fromId: WalletId, toId: WalletId,
                          amt: Units, tid: string, reference: Option<string>,
                          debitId: string, creditId: string, now: int)
    requires fromId != toId
    requires SettleTransfer(wallets, log, fromId, toId, amt, tid, reference, debitId, creditId, now).result.Ok?
    ensures var o := SettleTransfer(wallets, log, fromId, toId, amt, tid, reference, debitId, creditId, now);
            && o.wallets[fromId] == wallets[fromId].(balance := wallets[fromId].balance - amt)
            && o.wallets[toId] == wallets[toId].(balance := wallets[toId].balance + amt)
            && (forall id :: id in wallets && id != fromId && id != toId ==> o.wallets[id] == wallets[id])
            && TotalBalance(o.wallets) == TotalBalance(wallets)
  {
    var o := SettleTransfer(wallets, log, fromId, toId, amt, tid, reference, debitId, creditId, now);
    assert o.wallets == Adjust(Adjust(wallets, fromId, -amt), toId, amt);
    TransferConservesTotal(wallets, fromId, toId, amt);
  }

  /** A transfer moves the normalised amount from the source to the destination
      and leaves every other wallet, and the sum of all balances, as it was. */
  lemma TransferMovesAmount(wallets: map<WalletId, Wallet>, log: seq<Transaction>, fromId: WalletId, toId: WalletId,
                            amount: Option<Decimal>, transferId: Option<string>, reference: Option<string>,
                            generatedTransferId: string, debitId: string, creditId: string, now: int)
    requires TransferSpec(wallets, log, fromId, toId, amount, transferId, reference,
                          generatedTransferId, debitId, creditId, now).result.Ok?
    ensures var o := TransferSpec(wallets, log, fromId, toId, amount, transferId, reference,
                                  generatedTransferId, debitId, creditId, now);
            var amt := NormalizeAmount(amount).value;
            && amt > 0
            && o.wallets[fromId] == wallets[fromId].(balance := wallets[fromId].balance - amt)
            && o.wallets[toId] == wallets[toId].(balance := wallets[toId].balance + amt)
            && (forall id :: id in wallets && id != fromId && id != toId ==> o.wallets[id] == wallets[id])
            && TotalBalance(o.wallets) == TotalBalance(wallets)
  {
    var amt := NormalizeAmount(amount).value;
    var tid := EffectiveTransferId(transferId, generatedTransferId);
    SettleMovesAmount(wallets, log, fromId, toId, amt, tid, reference, debitId, creditId, now);
  }

  /** A settlement keeps the ledger invariant, and after it succeeds looking
      its transfer id up returns exactly its two records. */
  lemma SettleKeepsInv(wallets: map<WalletId, Wallet>, log: seq<Transaction>, nextWalletId: WalletId,
                       fromId: WalletId, toId: WalletId, amt: Units, tid: string, reference: Option<string>,
                       debitId: string, creditId: string, now: int)
    requires Inv(wallets, log, nextWalletId)
    requires fromId != toId && amt > 0
    requires FindByTransferId(log, Some(tid)) == []
    requires FreshTxId(log, debitId) && FreshTxId(log, creditId) && debitId != creditId
    ensures var o := SettleTransfer(wallets, log, fromId, toId, amt, tid, reference, debitId, creditId, now);
            && Inv(o.wallets, o.log, nextWalletId)
            && (o.result.Ok? ==> FindByTransferId(o.log, Some(tid)) == o.result.value)
  {
    var o := SettleTransfer(wallets, log, fromId, toId, amt, tid, reference, debitId, creditId, now);
    if fromId in wallets && toId in wallets && wallets[fromId].balance >= amt {
      var debit := Transaction(debitId, fromId, amt, DEBIT, SUCCESS, Some(tid), Some(toId), reference, now);
      var credit := Transaction(creditId, toId, amt, CREDIT, SUCCESS, Some(tid), Some(fromId), reference, now);
      var after := Adjust(Adjust(wallets, fromId, -amt), toId, amt);
      var log' := log + [debit, credit];
      assert o == TransferOutcome(Ok([debit, credit]), after, log');
      TransferKeepsInv(wallets, log, nextWalletId, debit, credit);
      assert o.wallets == after && o.log == log';
    } else {
      assert o.wallets == wallets && o.log == log;
    }
  }

  /** Every outcome keeps the ledger invariant, and after a successful transfer
      looking its id up returns exactly its two records. */
  lemma TransferSpecKeepsInv(wallets: map<WalletId, Wallet>, log: seq<Transaction>, nextWalletId: WalletId,
                             fromId: WalletId, toId: WalletId, amount: Option<Decimal>, transferId: Option<string>,
                             reference: Option<string>, generatedTransferId: string, debitId: string,
                             creditId: string, now: int)
    requires Inv(wallets, log, nextWalletId)
    requires FindByTransferId(log, Some(generatedTransferId)) == []
    requires FreshTxId(log, debitId) && FreshTxId(log, creditId) && debitId != creditId
    ensures var o := TransferSpec(wallets, log, fromId, toId, amount, transferId, reference,
                                  generatedTransferId, debitId, creditId, now);
            && Inv(o.wallets, o.log, nextWalletId)
            && (o.result.Ok? ==> FindByTransferId(o.log, Some(EffectiveTransferId(transferId, generatedTransferId)))
                                 == o.result.value)
  {
    if fromId != toId && !AlreadyProcessed(log, transferId) && NormalizeAmount(amount).Ok? {
      var tid := EffectiveTransferId(transferId, generatedTransferId);
      assert FindByTransferId(log, Some(tid)) == [];
      SettleKeepsInv(wallets, log, nextWalletId, fromId, toId, NormalizeAmount(amount).value, tid, reference,
                     debitId, creditId, now);
    }
  }

  /** Retrying a successful transfer with the same caller-supplied id is
      rejected as a duplicate and changes nothing: the id makes it idempotent. */
  lemma TransferRetryIsRejected(wallets: map<WalletId, Wallet>, log: seq<Transaction>,
                                fromId: WalletId, toId: WalletId, amount: Option<Decimal>, transferId: Option<string>,
                                reference: Option<string>, generatedTransferId: string, debitId: string,
                                creditId: string, now: int,
                                generated2: string, debit2: string, credit2: string, now2: int)
    requires !NullOrBlank(transferId)
    requires TransferSpec(wallets, log, fromId, toId, amount, transferId, reference,
                          generatedTransferId, debitId, creditId, now).result.Ok?
    ensures var o := TransferSpec(wallets, log, fromId, toId, amount, transferId, reference,
                                  generatedTransferId, debitId, creditId, now);
            var again := TransferSpec(o.wallets, o.log, fromId, toId, amount, transferId, reference,
                                      generated2, debit2, credit2, now2);
            again == TransferOutcome(Err(DuplicateResource(TransferIdProcessed(transferId.value))), o.wallets, o.log)
  {
    var o := TransferSpec(wallets, log, fromId, toId, amount, transferId, reference,
                          generatedTransferId, debitId, creditId, now);
    var debit := o.result.value[0];
    assert debit in o.log;
    assert debit.transferId == transferId;
    assert debit in FindByTransferId(o.log, transferId);
  }

  // ---------------------------------------------------------------------------
  // The service

  class Ledger {
    /** `customerRepository`: the store the "customer must exist" check reads. */
    const customerStore: CustomerService.CustomerStore
    var wallets: map<WalletId, Wallet>
    var log: seq<Transaction>
    /** The next identity value for a wallet row. */
    var nextWalletId: WalletId
    /** The wallet locks requested by the latest operation, in request order. */
    ghost var locksRequested: seq<WalletId>

    ghost predicate Valid()
      reads this`wallets, this`log, this`nextWalletId
    {
      Inv(wallets, log, nextWalletId)
    }

    constructor (customerStore: CustomerService.CustomerStore)
      ensures Valid() && this.customerStore == customerStore
      ensures wallets == map[] && log == [] && nextWalletId == 1 && locksRequested == []
    {
      this.customerStore := customerStore;
      wallets := map[];
      log := [];
      nextWalletId := 1;
      locksRequested := [];
    }

    /** `walletRepository.findByIdWithLock(id)`: records the lock request. */
    method FindByIdWithLock(id: WalletId) returns (w: Option<Wallet>)
      modifies this`locksRequested
      ensures locksRequested == old(locksRequested) + [id]
      ensures w == if id in wallets then Some(wallets[id]) else None
    {
      locksRequested := locksRequested + [id];
      w := if id in wallets then Some(wallets[id]) else None;
    }

    /** `createWalletForCustomer`: the customer must exist and must not own a
        wallet yet; the new wallet starts at balance 0. */
    method CreateWalletForCustomer(customerId: CustomerId) returns (r: Result<(WalletId, Wallet)>)
      requires Valid()
      modifies this
      ensures Valid() && log == old(log) && locksRequested == []
      ensures customerId !in customerStore.customers ==> r == Err(NotFound(CustomerResource, customerId))
      ensures customerId in customerStore.customers && OwnsWallet(old(wallets), customerId)
              ==> r == Err(DuplicateResource(WalletExistsFor(customerId)))
      ensures r.Ok? <==> customerId in customerStore.customers && !OwnsWallet(old(wallets), customerId)
      ensures r.Err? ==> wallets == old(wallets) && nextWalletId == old(nextWalletId)
      ensures r.Ok? ==>
                && r.value == (old(nextWalletId), Wallet(customerId, 0))
                && old(nextWalletId) !in old(wallets)
                && wallets == old(wallets)[old(nextWalletId) := Wallet(customerId, 0)]
                && nextWalletId == old(nextWalletId) + 1
    {
      locksRequested := [];
      if customerId !in customerStore.customers {
        return Err(NotFound(CustomerResource, customerId));
      }
      if OwnsWallet(wallets, customerId) {
        return Err(DuplicateResource(WalletExistsFor(customerId)));
      }
      CreateWalletKeepsInv(wallets, log, nextWalletId, customerId);
      var w := Wallet(customerId, 0);
      r := Ok((nextWalletId, w));
      wallets := wallets[nextWalletId := w];
      nextWalletId := nextWalletId + 1;
    }

    /** `getById`. */
    method GetById(id: WalletId) returns (r: Result<Wallet>)
      ensures id in wallets ==> r == Ok(wallets[id])
      ensures id !in wallets ==> r == Err(NotFound(WalletResource, id))
    {
      r := if id in wallets then Ok(wallets[id]) else Err(NotFound(WalletResource, id));
    }

    /** `findByCustomerId`: the customer's wallet, which is unique when present. */
    method FindByCustomerId(customerId: CustomerId) returns (r: Option<(WalletId, Wallet)>)
      requires Valid()
      ensures r.Some? <==> OwnsWallet(wallets, customerId)
      ensures r.Some? ==> r.value.0 in wallets && wallets[r.value.0] == r.value.1 && r.value.1.owner == customerId
      ensures r.Some? ==> forall id :: id in wallets && OwnerOf(wallets, id) == customerId ==> id == r.value.0
    {
      if OwnsWallet(wallets, customerId) {
        var id :| id in wallets && OwnerOf(wallets, id) == customerId;
        r := Some((id, wallets[id]));
      } else {
        r := None;
      }
    }

    /** `deposit`: normalise, lock the wallet, add the amount, log one CREDIT. */
    method Deposit(walletId: WalletId, amount: Option<Decimal>, reference: Option<string>, txId: string, now: int)
      returns (r: Result<Transaction>)
      requires Valid()
      requires FreshTxId(log, txId)
      modifies this
      ensures Valid() && nextWalletId == old(nextWalletId)
      ensures r.Err? ==> wallets == old(wallets) && log == old(log)
      ensures NormalizeAmount(amount).Err? ==> r == Err(NormalizeAmount(amount).error) && locksRequested == []
      ensures NormalizeAmount(amount).Ok? ==> locksRequested == [walletId]
      ensures NormalizeAmount(amount).Ok? && walletId !in old(wallets) ==> r == Err(NotFound(WalletResource, walletId))
      ensures r.Ok? <==> NormalizeAmount(amount).Ok? && walletId in old(wallets)
      ensures r.Ok? ==>
                var amt := NormalizeAmount(amount).value;
                && r.value == Transaction(txId, walletId, amt, CREDIT, SUCCESS, None, None, reference, now)
                && wallets == Adjust(old(wallets), walletId, amt)
                && log == old(log) + [r.value]
    {
      locksRequested := [];
      var normalized := NormalizeAmount(amount);
      if normalized.Err? {
        return Err(normalized.error);
      }
      var amt := normalized.value;
      var found := FindByIdWithLock(walletId);
      if found.None? {
        return Err(NotFound(WalletResource, walletId));
      }
      var tx := Transaction(txId, walletId, amt, CREDIT, SUCCESS, None, None, reference, now);
      PostKeepsInv(wallets, log, nextWalletId, tx);
      wallets, log := Adjust(wallets, walletId, amt), log + [tx];
      r := Ok(tx);
    }

    /** `withdraw`: as deposit, but fails InsufficientFunds when the balance is
        below the amount, and logs one DEBIT. */
    method Withdraw(walletId: WalletId, amount: Option<Decimal>, reference: Option<string>, txId: string, now: int)
      returns (r: Result<Transaction>)
      requires Valid()
      requires FreshTxId(log, txId)
      modifies this
      ensures Valid() && nextWalletId == old(nextWalletId)
      ensures r.Err? ==> wallets == old(wallets) && log == old(log)
      ensures NormalizeAmount(amount).Err? ==> r == Err(NormalizeAmount(amount).error) && locksRequested == []
      ensures NormalizeAmount(amount).Ok? ==> locksRequested == [walletId]
      ensures NormalizeAmount(amount).Ok? && walletId !in old(wallets) ==> r == Err(NotFound(WalletResource, walletId))
      ensures NormalizeAmount(amount).Ok? && walletId in old(wallets)
              && old(wallets)[walletId].balance < NormalizeAmount(amount).value
              ==> r == Err(InsufficientFunds(walletId))
      ensures r.Ok? <==> NormalizeAmount(amount).Ok? && walletId in old(wallets)
                         && old(wallets)[walletId].balance >= NormalizeAmount(amount).value
      ensures r.Ok? ==>
                var amt := NormalizeAmount(amount).value;
                && r.value == Transaction(txId, walletId, amt, DEBIT, SUCCESS, None, None, reference, now)
                && wallets == Adjust(old(wallets), walletId, -amt)
                && wallets[walletId].balance >= 0
                && log == old(log) + [r.value]
    {
      locksRequested := [];
      var normalized := NormalizeAmount(amount);
      if normalized.Err? {
        return Err(normalized.error);
      }
      var amt := normalized.value;
      var found := FindByIdWithLock(walletId);
      if found.None? {
        return Err(NotFound(WalletResource, walletId));
      }
      var wallet := found.value;
      if wallet.balance < amt {
        return Err(InsufficientFunds(walletId));
      }
      var tx := Transaction(txId, walletId, amt, DEBIT, SUCCESS, None, None, reference, now);
      PostKeepsInv(wallets, log, nextWalletId, tx);
      wallets, log := Adjust(wallets, walletId, -amt), log + [tx];
      r := Ok(tx);
    }

    /** `transfer`: rejects a same-wallet transfer and a transfer id already
        processed, normalises the amount, locks both wallets in ascending id
        order, checks the source balance, then moves the amount and logs a DEBIT
        on the source and a CREDIT on the destination sharing one transfer id.
        `generatedTransferId` is the UUID used when the caller gives none. */
    method Transfer(fromId: WalletId, toId: WalletId, amount: Option<Decimal>, transferId: Option<string>,
                    reference: Option<string>, generatedTransferId: string, debitId: string, creditId: string, now: int)
      returns (r: Result<seq<Transaction>>)
      requires Valid()
      requires FindByTransferId(log, Some(generatedTransferId)) == []
      requires FreshTxId(log, debitId) && FreshTxId(log, creditId) && debitId != creditId
      modifies this
      ensures Valid() && nextWalletId == old(nextWalletId)
      ensures TransferOutcome(r, wallets, log)
              == TransferSpec(old(wallets), old(log), fromId, toId, amount, transferId, reference,
                              generatedTransferId, debitId, creditId, now)
      ensures Ascending(locksRequested)
      ensures fromId == toId || AlreadyProcessed(old(log), transferId) || NormalizeAmount(amount).Err?
              ==> locksRequested == []
      ensures fromId != toId && !AlreadyProcessed(old(log), transferId) && NormalizeAmount(amount).Ok?
              ==> locksRequested == TransferLockRequests(old(wallets), fromId, toId)
    {
      locksRequested := [];
      if fromId == toId {
        return Err(BadRequest(WalletsMustDiffer));
      }
      var tid: string;
      if NullOrBlank(transferId) {
        tid := generatedTransferId;
      } else {
        if FindByTransferId(log, transferId) != [] {
          return Err(DuplicateResource(TransferIdProcessed(transferId.value)));
        }
        tid := transferId.value;
      }
      var normalized := NormalizeAmount(amount);
      if normalized.Err? {
        return Err(normalized.error);
      }
      r := Settle(fromId, toId, normalized.value, tid, reference, debitId, creditId, now);
    }

    /** The locking half of `transfer`: lock the smaller id first, check the
        source balance, then commit both balance updates and both records. */
    method Settle(fromId: WalletId, toId: WalletId, amt: Units, tid: string, reference: Option<string>,
                  debitId: string, creditId: string, now: int)
      returns (r: Result<seq<Transaction>>)
      requires Valid() && fromId != toId && amt > 0
      requires FindByTransferId(log, Some(tid)) == []
      requires FreshTxId(log, debitId) && FreshTxId(log, creditId) && debitId != creditId
      modifies this
      ensures Valid() && nextWalletId == old(nextWalletId)
      ensures TransferOutcome(r, wallets, log)
              == SettleTransfer(old(wallets), old(log), fromId, toId, amt, tid, reference, debitId, creditId, now)
      ensures locksRequested == old(locksRequested) + TransferLockRequests(old(wallets), fromId, toId)
    {
      var fromIsFirst := fromId < toId;
      var firstId := if fromIsFirst then fromId else toId;
      var secondId := if fromIsFirst then toId else fromId;
      var first := FindByIdWithLock(firstId);
      if first.None? {
        return Err(NotFound(WalletResource, firstId));
      }
      var second := FindByIdWithLock(secondId);
      if second.None? {
        return Err(NotFound(WalletResource, secondId));
      }
      var fromWallet := if fromIsFirst then first.value else second.value;
      if fromWallet.balance < amt {
        return Err(InsufficientFunds(fromId));
      }
      var debit := Transaction(debitId, fromId, amt, DEBIT, SUCCESS, Some(tid), Some(toId), reference, now);
      var credit := Transaction(creditId, toId, amt, CREDIT, SUCCESS, Some(tid), Some(fromId), reference, now);
      SettleKeepsInv(wallets, log, nextWalletId, fromId, toId, amt, tid, reference, debitId, creditId, now);
      // both balance updates and both records commit together
      wallets, log := Adjust(Adjust(wallets, fromId, -amt), toId, amt), log + [debit, credit];
      r := Ok([debit, credit]);
    }
  }
}
