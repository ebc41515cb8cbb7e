/** What every interleaving of ledger steps keeps. */
module LedgerInvariants {
  import opened Money
  import opened Options
  import opened Transactions
  import opened InterestRules
  import opened InterestSchedule
  import opened IncrementalAccrual
  import opened InterestEngine
  import opened LinkedTables
  import opened InterestTables
  import opened LedgerMachine
  import Recalculation
  import BatchRecalculation

  /** The rows no interest step touches. */
  ghost function Core(txs: seq<Transaction>): set<Transaction> {
    set tx | tx in txs && tx.source != DepositInterest
  }

  ghost predicate DistinctIds(core: set<Transaction>, nextId: Id) {
    && (forall a, b :: a in core && b in core && a.id == b.id ==> a == b)
    && (forall a :: a in core ==> a.id < nextId)
  }

  /** Only manual rows outside transfers ever leave the confirmed state. */
  ghost predicate OnlyManualRetired(core: set<Transaction>) {
    forall tx :: tx in core && tx.status != Confirmed ==> tx.source == Manual && tx.transfer.None?
  }

  ghost predicate Reverses(adjustment: Transaction, original: Transaction) {
    && adjustment.source == ReconciliationAdjustment && adjustment.sourceRef == Some(original.id)
    && adjustment.kind == Adjustment && adjustment.status == Confirmed
    && adjustment.account == original.account && adjustment.amount == -Delta(original)
    && original.status == Status.Reversed
  }

  ghost predicate HasOriginal(core: set<Transaction>, adjustment: Transaction) {
    exists o :: o in core && Reverses(adjustment, o)
  }

  ghost predicate HasAdjustment(core: set<Transaction>, original: Transaction) {
    exists a :: a in core && Reverses(a, original)
  }

  /** Reversed rows and reconciliation adjustments of the opposite amount are in bijection. */
  ghost predicate ReversalsPaired(core: set<Transaction>) {
    && (forall a :: a in core && a.source == ReconciliationAdjustment ==> HasOriginal(core, a))
    && (forall o :: o in core && o.status == Status.Reversed ==> HasAdjustment(core, o))
    && (forall a, b :: a in core && b in core && SameReversal(a, b) ==> a == b)
  }

  ghost predicate SameReversal(a: Transaction, b: Transaction) {
    a.source == ReconciliationAdjustment && b.source == ReconciliationAdjustment && a.sourceRef == b.sourceRef
  }

  ghost predicate ReadsRow(core: set<Transaction>, r: Reversal) {
    exists o :: o in core && o.id == r.tx && o.source == Manual && r.amount == -Delta(o)
  }

  /** An amount read before the lock still is the opposite of its row's effect. */
  ghost predicate ReadsStillRight(core: set<Transaction>, inFlight: seq<Reversal>) {
    forall r :: r in inFlight ==> ReadsRow(core, r)
  }

  /** The legs of a transfer as its record says, confirmed. */
  ghost predicate LegsMatch(core: set<Transaction>, t: TransferRecord) {
    && (exists o :: o in core && o.id == t.outTx && o.account == t.fromAccount && o.related == Some(t.toAccount)
          && o.transfer == Some(t.id) && o.kind == TransferOut && o.amount == t.fromAmount
          && o.source == TransferFlow && o.status == Confirmed)
    && (exists i :: i in core && i.id == t.inTx && i.account == t.toAccount && i.related == Some(t.fromAccount)
          && i.transfer == Some(t.id) && i.kind == TransferIn && i.amount == t.toAmount
          && i.source == TransferFlow && i.status == Confirmed)
    && (t.feeTx.Some? <==> t.fee > 0)
    && (t.feeTx.Some? ==>
          exists f :: f in core && f.id == t.feeTx.value && f.account == t.fromAccount && f.kind == Expense
            && f.amount == t.fee && f.source == TransferFlow && f.status == Confirmed)
  }

  ghost predicate TransfersMatch(core: set<Transaction>, transfers: seq<TransferRecord>) {
    forall t :: t in transfers ==> LegsMatch(core, t)
  }

  ghost predicate CoreKept(core: set<Transaction>, inFlight: seq<Reversal>, transfers: seq<TransferRecord>,
      nextId: Id) {
    && DistinctIds(core, nextId) && OnlyManualRetired(core) && ReversalsPaired(core)
    && ReadsStillRight(core, inFlight) && TransfersMatch(core, transfers)
  }

  ghost predicate Kept(s: Ledger) {
    && Consistent(s.tables)
    && CoreKept(Core(s.tables.txs), s.inFlight, s.transfers, s.tables.nextId)
  }

  // ---- Steps on the core rows

  lemma LegsSurvive(core: set<Transaction>, core': set<Transaction>, t: TransferRecord)
    requires LegsMatch(core, t)
    requires forall tx :: tx in core && tx.source == TransferFlow ==> tx in core'
    ensures LegsMatch(core', t)
  {
  }

  lemma TransfersSurvive(core: set<Transaction>, core': set<Transaction>, transfers: seq<TransferRecord>)
    requires TransfersMatch(core, transfers)
    requires forall tx :: tx in core && tx.source == TransferFlow ==> tx in core'
    ensures TransfersMatch(core', transfers)
  {
    hide LegsMatch;
    forall t | t in transfers ensures LegsMatch(core', t) {
      LegsSurvive(core, core', t);
    }
  }

  lemma InsertPaired(core: set<Transaction>, tx: Transaction)
    requires ReversalsPaired(core) && tx.status == Confirmed && tx.source != ReconciliationAdjustment
    ensures ReversalsPaired(core + {tx})
  {
    hide Reverses;
    var core' := core + {tx};
    forall a | a in core' && a.source == ReconciliationAdjustment ensures HasOriginal(core', a) {
      var o :| o in core && Reverses(a, o);
      assert o in core';
    }
    forall o | o in core' && o.status == Status.Reversed ensures HasAdjustment(core', o) {
      var a :| a in core && Reverses(a, o);
      assert a in core';
    }
  }

  lemma InsertReads(core: set<Transaction>, inFlight: seq<Reversal>, tx: Transaction)
    requires ReadsStillRight(core, inFlight)
    ensures ReadsStillRight(core + {tx}, inFlight)
  {
    hide Delta;
    forall r | r in inFlight ensures ReadsRow(core + {tx}, r) {
      var o :| o in core && o.id == r.tx && o.source == Manual && r.amount == -Delta(o);
      assert o in core + {tx};
    }
  }

  /** Adding a confirmed row that is not an adjustment. */
  lemma InsertKeeps(core: set<Transaction>, inFlight: seq<Reversal>, transfers: seq<TransferRecord>, nextId: Id,
      tx: Transaction, nextId': Id)
    requires CoreKept(core, inFlight, transfers, nextId)
    requires nextId <= tx.id < nextId' && tx.status == Confirmed && tx.source != ReconciliationAdjustment
    ensures CoreKept(core + {tx}, inFlight, transfers, nextId')
  {
    hide ReversalsPaired, ReadsStillRight, TransfersMatch;
    InsertPaired(core, tx);
    InsertReads(core, inFlight, tx);
    TransfersSurvive(core, core + {tx}, transfers);
  }

  lemma UpdateReads(core: set<Transaction>, inFlight: seq<Reversal>, row: Transaction, status: Status)
    requires ReadsStillRight(core, inFlight) && row in core
    ensures ReadsStillRight(core - {row} + {row.(status := status)}, inFlight)
  {
    var core' := core - {row} + {row.(status := status)};
    forall r | r in inFlight ensures ReadsRow(core', r) {
      var o :| o in core && o.id == r.tx && o.source == Manual && r.amount == -Delta(o);
      assert if o == row then row.(status := status) in core' else o in core';
    }
  }

  lemma ReversesFacts(a: Transaction, o: Transaction)
    requires Reverses(a, o)
    ensures a.source == ReconciliationAdjustment && o.status == Status.Reversed
  {
  }

  lemma UpdatePaired(core: set<Transaction>, row: Transaction, status: Status)
    requires ReversalsPaired(core) && row in core && Manageable(row) && status in {Cancelled, SoftDeleted}
    ensures ReversalsPaired(core - {row} + {row.(status := status)})
  {
    hide Reverses;
    var row' := row.(status := status);
    var core' := core - {row} + {row'};
    assert row'.source == Manual && row'.status != Status.Reversed;
    forall a | a in core && a.source == ReconciliationAdjustment ensures HasOriginal(core', a) {
      assert HasOriginal(core, a);
      var o :| o in core && Reverses(a, o);
      ReversesFacts(a, o);
      assert o in core';
    }
    forall o | o in core && o.status == Status.Reversed ensures HasAdjustment(core', o) {
      assert HasAdjustment(core, o);
      var a :| a in core && Reverses(a, o);
      ReversesFacts(a, o);
      assert a in core';
    }
  }

  lemma UpdateDistinct(core: set<Transaction>, nextId: Id, row: Transaction, status: Status)
    requires DistinctIds(core, nextId) && row in core
    ensures DistinctIds(core - {row} + {row.(status := status)}, nextId)
  {
  }

  lemma UpdateRetired(core: set<Transaction>, row: Transaction, status: Status)
    requires OnlyManualRetired(core) && row in core && Manageable(row)
    ensures OnlyManualRetired(core - {row} + {row.(status := status)})
  {
  }

  /** Retiring a manual row with a final status other than reversed. */
  lemma RetireKeeps(core: set<Transaction>, inFlight: seq<Reversal>, transfers: seq<TransferRecord>, nextId: Id,
      row: Transaction, status: Status)
    requires CoreKept(core, inFlight, transfers, nextId) && row in core && Manageable(row)
    requires status in {Cancelled, SoftDeleted}
    ensures CoreKept(core - {row} + {row.(status := status)}, inFlight, transfers, nextId)
  {
    hide ReversalsPaired, ReadsStillRight, TransfersMatch, DistinctIds, OnlyManualRetired;
    UpdateDistinct(core, nextId, row, status);
    UpdateRetired(core, row, status);
    UpdatePaired(core, row, status);
    UpdateReads(core, inFlight, row, status);
    TransfersSurvive(core, core - {row} + {row.(status := status)}, transfers);
  }

  lemma ReversePaired(core: set<Transaction>, nextId: Id, row: Transaction, adjustment: Transaction)
    requires ReversalsPaired(core) && DistinctIds(core, nextId) && row in core && Manageable(row)
    requires Reverses(adjustment, row.(status := Status.Reversed))
    ensures ReversalsPaired(core - {row} + {row.(status := Status.Reversed)} + {adjustment})
  {
    hide Delta;
    var row' := row.(status := Status.Reversed);
    var core' := core - {row} + {row'} + {adjustment};
    assert row' in core' && adjustment in core';
    forall a | a in core && a.source == ReconciliationAdjustment
      ensures HasOriginal(core', a) && a.sourceRef != adjustment.sourceRef
    {
      assert HasOriginal(core, a);
      var o :| o in core && Reverses(a, o);
      assert o in core';
    }
    forall o | o in core && o.status == Status.Reversed ensures HasAdjustment(core', o) {
      assert HasAdjustment(core, o);
      var a :| a in core && Reverses(a, o);
      assert a in core';
    }
    assert HasOriginal(core', adjustment) && HasAdjustment(core', row');
  }

  /** Marking a manual row reversed together with its adjustment. */
  lemma ReverseKeeps(core: set<Transaction>, inFlight: seq<Reversal>, transfers: seq<TransferRecord>, nextId: Id,
                     row: Transaction, adjustment: Transaction)
    requires CoreKept(core, inFlight, transfers, nextId) && row in core && Manageable(row)
    requires adjustment.id == nextId && Reverses(adjustment, row.(status := Status.Reversed))
    ensures CoreKept(core - {row} + {row.(status := Status.Reversed)} + {adjustment}, inFlight, transfers, nextId + 1)
  {
    hide ReversalsPaired, ReadsStillRight, TransfersMatch;
    var mid := core - {row} + {row.(status := Status.Reversed)};
    UpdateDistinct(core, nextId, row, Status.Reversed);
    UpdateRetired(core, row, Status.Reversed);
    ReversePaired(core, nextId, row, adjustment);
    UpdateReads(core, inFlight, row, Status.Reversed);
    InsertReads(mid, inFlight, adjustment);
    TransfersSurvive(core, mid + {adjustment}, transfers);
  }

  // ---- Core rows of a table

  lemma CoreSnoc(txs: seq<Transaction>, tx: Transaction)
    ensures Core(txs + [tx]) == if tx.source == DepositInterest then Core(txs) else Core(txs) + {tx}
  {
  }

  lemma CoreUpdate(txs: seq<Transaction>, row: Transaction, status: Status)
    requires UniqueIds(txs) && row in txs && row.source != DepositInterest
    ensures Core(WithStatus(txs, row.id, status)) == Core(txs) - {row} + {row.(status := status)}
  {
    var r := WithStatus(txs, row.id, status);
    forall tx ensures tx in Core(r) <==> tx in Core(txs) - {row} + {row.(status := status)} {
      if tx in r {
        var i :| 0 <= i < |r| && r[i] == tx;
        assert txs[i] in txs;
        if txs[i].id == row.id { SameRow(txs, txs[i], row); }
      }
      if tx in txs {
        var i :| 0 <= i < |txs| && txs[i] == tx;
        assert r[i] in r;
        if tx.id == row.id { SameRow(txs, tx, row); }
      }
      if tx == row.(status := status) {
        var i :| 0 <= i < |txs| && txs[i] == row;
        assert r[i] == tx;
      }
    }
  }

  lemma SameRow(txs: seq<Transaction>, a: Transaction, b: Transaction)
    requires UniqueIds(txs) && a in txs && b in txs && a.id == b.id
    ensures a == b
  {
    var i :| 0 <= i < |txs| && txs[i] == a;
    var j :| 0 <= j < |txs| && txs[j] == b;
  }

  // ---- Consistency of the interest tables under other steps

  lemma InsertKeepsConsistent(t: Tables, tx: Transaction)
    requires Consistent(t) && tx.id == t.nextId && tx.source != DepositInterest
    ensures Consistent(Insert(t, tx))
  {
    hide InterestRows, Paired, OnePerDay;
    InterestRowsSnoc(t.txs, tx);
  }

  lemma {:induction false} UpdateKeepsInterestRows(txs: seq<Transaction>, id: Id, status: Status)
    requires forall i :: 0 <= i < |txs| && txs[i].id == id ==> txs[i].source != DepositInterest
    ensures InterestRows(WithStatus(txs, id, status)) == InterestRows(txs)
  {
    if txs != [] {
      var n := |txs| - 1;
      UpdateKeepsInterestRows(txs[..n], id, status);
      var r := WithStatus(txs, id, status);
      assert r[..n] == WithStatus(txs[..n], id, status);
    }
  }

  lemma UpdateKeepsConsistent(t: Tables, row: Transaction, status: Status)
    requires Consistent(t) && row in t.txs && row.source != DepositInterest
    ensures Consistent(t.(txs := WithStatus(t.txs, row.id, status)))
  {
    hide InterestRows, Paired, OnePerDay;
    forall i | 0 <= i < |t.txs| && t.txs[i].id == row.id ensures t.txs[i].source != DepositInterest {
      SameRow(t.txs, t.txs[i], row);
    }
    UpdateKeepsInterestRows(t.txs, row.id, status);
  }

  // ---- Interest steps

  /** An accrual attempt of any rule keeps the tables consistent and every other row. */
  lemma AccrueKeeps(t: Tables, rule: Rule, currency: string, date: nat)
    requires Consistent(t)
    ensures var t' := AccrueStep(t, rule, currency, date);
            Consistent(t') && Core(t'.txs) == Core(t.txs) && t.nextId <= t'.nextId
  {
    hide Linked, OnePerDay, BelowId, AccountRows, AccountAccruals, AccrualPostings, HasAccrual, AccrualAmount,
      ActiveOn, ShouldPost, PrincipalOn, UpToDate, Balance, HasPosting;
    var accs := AccountAccruals(t.accruals, rule.account);
    var r := AttemptOn(AccountRows(t.txs, rule.account), accs, rule, currency, date, t.nextId);
    if r.Accrued? {
      var p := Posting(date, r.transaction.amount);
      PostingsRecordDates(accs, rule, date);
      SnapshotPostings(t.accruals, rule);
      PayoutKeepsConsistent(t, rule, p);
      CoreSnoc(t.txs, r.transaction);
    }
  }

  lemma {:induction false} PayoutsKeepCore(t: Tables, rule: Rule, out: seq<Posting>)
    ensures Core(WithPayouts(t, rule, out).txs) == Core(t.txs)
    ensures t.nextId <= WithPayouts(t, rule, out).nextId
  {
    hide Core;
    if out != [] {
      var n := |out| - 1;
      PayoutsKeepCore(t, rule, out[..n]);
      var mid := WithPayouts(t, rule, out[..n]);
      CoreSnoc(mid.txs, InterestTransaction(rule, out[n], mid.nextId, mid.nextId + 1));
    }
  }

  lemma ClearingKeepsCore(t: Tables, rule: Rule, from: nat, to: nat)
    requires Consistent(t)
    ensures Core(Cleared(t, rule, from, to).txs) == Core(t.txs)
  {
    hide WithoutIds, WithoutInterest, OnePerDay, BelowId;
    var ids := ReplacedIds(t.accruals, rule, from, to);
    ReplacedRowsAreInterest(t.txs, t.accruals, rule, from, to);
    WithoutIdsKeeps(t.txs, ids);
    forall tx | tx in t.txs && tx.source != DepositInterest ensures tx.id !in ids {
      if j :| 0 <= j < |t.accruals| && t.accruals[j].transaction == tx.id {
        NamedRowIsInterest(t.txs, t.accruals, tx, j);
      }
    }
  }

  lemma RecalculateKeeps(t: Tables, rule: Rule, currency: string, from: nat, to: nat)
    requires Consistent(t)
    ensures var t' := RecalculateStep(t, rule, currency, from, to);
            Consistent(t') && Core(t'.txs) == Core(t.txs) && t.nextId <= t'.nextId
  {
    hide Consistent, AccountRows, AccountAccruals, RangeLoop, Core, Cleared, WithRows, AllInBounds, WithPayouts,
      Recalculation.Outside, BatchRecalculation.Recalculated, BaseRows, Flows, Postings;
    if rule.annualRateBps > 0 && from <= to {
      RecalculateStepIsReplacement(t, rule, currency, from, to);
      var out := BatchRecalculation.Recalculated(TableBook(t, rule, CurrencyScale(currency)),
                                                 Recalculation.Outside(Postings(t, rule), from, to), from, to).out;
      ClearingKeepsCore(t, rule, from, to);
      PayoutsKeepCore(Cleared(t, rule, from, to), rule, out);
      SameNextId(t, rule, from, to);
    }
  }

  // ---- Every step

  lemma InterestKeeps(s: Ledger, t': Tables)
    requires Kept(s) && Consistent(t') && Core(t'.txs) == Core(s.tables.txs) && s.tables.nextId <= t'.nextId
    ensures Kept(s.(tables := t'))
  {
    hide Consistent, ReversalsPaired, ReadsStillRight, TransfersMatch, OnlyManualRetired, Core;
  }

  lemma DropsRead(core: set<Transaction>, inFlight: seq<Reversal>, i: nat)
    requires ReadsStillRight(core, inFlight) && i < |inFlight|
    ensures ReadsStillRight(core, inFlight[..i] + inFlight[i + 1..])
  {
    hide ReadsRow;
  }

  lemma LockedRow(s: Ledger, user: Id, id: Id)
    requires Locked(s, user, id).Some?
    ensures var row := Locked(s, user, id).value;
            row in s.tables.txs && row in Core(s.tables.txs) && row.id == id && Manageable(row)
  {
  }

  lemma CreateKeeps(s: Ledger, e: Event)
    requires Kept(s) && e.Create?
    ensures Kept(Apply(s, e))
  {
    hide Consistent, CoreKept, Core, CanCreate;
    if CanCreate(s, e) {
      var tx := Transaction(s.tables.nextId, e.account, e.related, None, Manual, None, e.kind, Confirmed, e.amount,
        e.date);
      InsertKeepsConsistent(s.tables, tx);
      CoreSnoc(s.tables.txs, tx);
      InsertKeeps(Core(s.tables.txs), s.inFlight, s.transfers, s.tables.nextId, tx, s.tables.nextId + 1);
    }
  }

  lemma RetiredKeeps(s: Ledger, user: Id, id: Id, status: Status)
    requires Kept(s) && Locked(s, user, id).Some? && status in {Cancelled, SoftDeleted}
    ensures Kept(Retired(s, id, status))
  {
    hide CoreKept, Core, Locked, Linked, OnePerDay, WithStatus;
    LockedRow(s, user, id);
    var row := Locked(s, user, id).value;
    UpdateKeepsConsistent(s.tables, row, status);
    assert UniqueIds(s.tables.txs) by { LinkedIsUnique(s.tables.txs, s.tables.accruals); }
    CoreUpdate(s.tables.txs, row, status);
    RetireKeeps(Core(s.tables.txs), s.inFlight, s.transfers, s.tables.nextId, row, status);
  }

  lemma LinkedIsUnique(txs: seq<Transaction>, accruals: seq<Accrual>)
    requires Linked(txs, accruals)
    ensures UniqueIds(txs)
  {
  }

  lemma ReadKeeps(s: Ledger, user: Id, id: Id)
    requires Kept(s)
    ensures Kept(Apply(s, ReadForReversal(user, id)))
  {
    hide Consistent, Core, Locked, ReversalsPaired, TransfersMatch, OnlyManualRetired, DistinctIds, Delta;
    if Locked(s, user, id).Some? {
      LockedRow(s, user, id);
      var row := Locked(s, user, id).value;
      var r := Reversal(user, id, -Delta(row));
      assert ReadsRow(Core(s.tables.txs), r);
      ReadAdded(Core(s.tables.txs), s.inFlight, r);
    }
  }

  lemma ReadAdded(core: set<Transaction>, inFlight: seq<Reversal>, r: Reversal)
    requires ReadsStillRight(core, inFlight) && ReadsRow(core, r)
    ensures ReadsStillRight(core, inFlight + [r])
  {
    hide ReadsRow;
  }

  /** The commit uses an amount read before the lock, and it is right for the row it locks. */
  lemma AdjustmentReverses(s: Ledger, r: Reversal, row: Transaction, date: nat)
    requires Kept(s) && r in s.inFlight && row in Core(s.tables.txs) && row.id == r.tx
    ensures Reverses(Adjusting(row, s.tables.nextId, r.amount, date), row.(status := Status.Reversed))
  {
    hide Consistent, ReversalsPaired, TransfersMatch, OnlyManualRetired, Core;
    var o :| o in Core(s.tables.txs) && o.id == r.tx && o.source == Manual && r.amount == -Delta(o);
    assert o == row;
  }

  lemma CommitKeeps(s: Ledger, i: nat, date: nat)
    requires Kept(s)
    ensures Kept(Apply(s, CommitReversal(i, date)))
  {
    hide Core, Locked, Linked, OnePerDay, WithStatus, ReversalsPaired, ReadsStillRight, TransfersMatch,
      OnlyManualRetired, DistinctIds, Adjusting;
    if i < |s.inFlight| {
      var r := s.inFlight[i];
      DropsRead(Core(s.tables.txs), s.inFlight, i);
      var s' := s.(inFlight := s.inFlight[..i] + s.inFlight[i + 1..]);
      assert Kept(s');
      if Locked(s, r.user, r.tx).Some? {
        LockedRow(s, r.user, r.tx);
        var row := Locked(s, r.user, r.tx).value;
        AdjustmentReverses(s, r, row, date);
        ReversedKeeps(s', r, row, date);
      }
    }
  }

  lemma ReversedKeeps(s: Ledger, r: Reversal, row: Transaction, date: nat)
    requires Kept(s) && row in s.tables.txs && row in Core(s.tables.txs) && Manageable(row)
    requires Reverses(Adjusting(row, s.tables.nextId, r.amount, date), row.(status := Status.Reversed))
    ensures Kept(MarkReversed(s, r, row, date))
  {
    hide Core, OnePerDay, WithStatus, CoreKept, InterestRows, Paired;
    var adjustment := Adjusting(row, s.tables.nextId, r.amount, date);
    UpdateKeepsConsistent(s.tables, row, Status.Reversed);
    var marked := s.tables.(txs := WithStatus(s.tables.txs, row.id, Status.Reversed));
    InsertKeepsConsistent(marked, adjustment);
    CoreUpdate(s.tables.txs, row, Status.Reversed);
    CoreSnoc(marked.txs, adjustment);
    ReverseKeeps(Core(s.tables.txs), s.inFlight, s.transfers, s.tables.nextId, row, adjustment);
  }

  lemma RecordAdded(core: set<Transaction>, transfers: seq<TransferRecord>, t: TransferRecord)
    requires TransfersMatch(core, transfers) && LegsMatch(core, t)
    ensures TransfersMatch(core, transfers + [t])
  {
    hide LegsMatch;
  }

  lemma InsertLeg(t: Tables, inFlight: seq<Reversal>, transfers: seq<TransferRecord>, tx: Transaction)
    requires Consistent(t) && CoreKept(Core(t.txs), inFlight, transfers, t.nextId)
    requires tx.id == t.nextId && tx.status == Confirmed && tx.source == TransferFlow
    ensures var t' := Insert(t, tx);
            Consistent(t') && CoreKept(Core(t'.txs), inFlight, transfers, t'.nextId)
              && Core(t'.txs) == Core(t.txs) + {tx}
  {
    hide Core, CoreKept, Consistent;
    InsertKeepsConsistent(t, tx);
    CoreSnoc(t.txs, tx);
    InsertKeeps(Core(t.txs), inFlight, transfers, t.nextId, tx, t.nextId + 1);
  }

  lemma SkipId(t: Tables, inFlight: seq<Reversal>, transfers: seq<TransferRecord>, nextId: Id)
    requires Consistent(t) && CoreKept(Core(t.txs), inFlight, transfers, t.nextId) && t.nextId <= nextId
    ensures Consistent(t.(nextId := nextId)) && CoreKept(Core(t.txs), inFlight, transfers, nextId)
  {
    hide Core, Linked, OnePerDay, ReversalsPaired, ReadsStillRight, TransfersMatch, OnlyManualRetired;
  }

  lemma TransferKeeps(s: Ledger, e: Event)
    requires Kept(s) && e.Transfer? && CanTransfer(s, e)
    ensures Kept(Transferred(s, e))
  {
    hide Core, CoreKept, Consistent, CanTransfer, Credited;
    var n := s.tables.nextId;
    var t0 := s.tables.(nextId := n + 1);
    SkipId(s.tables, s.inFlight, s.transfers, n + 1);
    var o, i, f := OutLeg(e, n, n + 1), InLeg(e, n, n + 2), FeeLeg(e, n, n + 3);
    InsertLeg(t0, s.inFlight, s.transfers, o);
    var t1 := Insert(t0, o);
    InsertLeg(t1, s.inFlight, s.transfers, i);
    var t2 := Insert(t1, i);
    var s' := Transferred(s, e);
    if e.fee > 0 {
      InsertLeg(t2, s.inFlight, s.transfers, f);
      assert s'.tables.txs == Insert(t2, f).txs;
      assert s'.tables == Insert(t2, f);
    } else {
      SkipId(t2, s.inFlight, s.transfers, n + 4);
      assert s'.tables.txs == t2.txs;
      assert s'.tables == t2.(nextId := n + 4);
    }
    FeeIsNotNegative(s, e);
    TransferRecorded(s, e, Core(s'.tables.txs), o, i, f);
  }

  lemma FeeIsNotNegative(s: Ledger, e: Event)
    requires e.Transfer? && CanTransfer(s, e)
    ensures e.fee >= 0
  {
  }

  lemma TransferRecorded(s: Ledger, e: Event, core: set<Transaction>, o: Transaction, i: Transaction, f: Transaction)
    requires e.Transfer? && e.fee >= 0
    requires var n := s.tables.nextId; o == OutLeg(e, n, n + 1) && i == InLeg(e, n, n + 2) && f == FeeLeg(e, n, n + 3)
    requires CoreKept(core, s.inFlight, s.transfers, s.tables.nextId + 4)
    requires o in core && i in core && (e.fee > 0 ==> f in core)
    ensures CoreKept(core, s.inFlight, Transferred(s, e).transfers, s.tables.nextId + 4)
  {
    hide Credited, ReversalsPaired, ReadsStillRight, TransfersMatch, OnlyManualRetired, DistinctIds;
    var s' := Transferred(s, e);
    var record := s'.transfers[|s.transfers|];
    assert LegsMatch(core, record);
    RecordAdded(core, s.transfers, record);
  }

  /** Every step keeps the ledger's invariant. */
  lemma StepKeeps(s: Ledger, e: Event)
    requires Kept(s)
    ensures Kept(Apply(s, e))
  {
    hide Kept, Locked, CanCreate, CanTransfer, CanUpdate, Retired, MarkReversed, Transferred;
    match e
    case OpenAccount(id, added) => AccountsDoNotMatter(s, s.accounts[id := added]);
    case UpdateAccount(user, id, updated) => AccountsDoNotMatter(s, s.accounts[id := updated.(owner := user)]);
    case Create(_, _, _, _, _, _, _, _) => CreateKeeps(s, e);
    case Cancel(user, tx) => if Locked(s, user, tx).Some? { RetiredKeeps(s, user, tx, Cancelled); }
    case SoftDelete(user, tx) => if Locked(s, user, tx).Some? { RetiredKeeps(s, user, tx, SoftDeleted); }
    case ReadForReversal(user, tx) => ReadKeeps(s, user, tx);
    case CommitReversal(i, date) => CommitKeeps(s, i, date);
    case AbandonReversal(i) => AbandonKeeps(s, i);
    case Transfer(_, _, _, _, _, _, _, _, _) => if CanTransfer(s, e) { TransferKeeps(s, e); }
    case AccrueInterest(user, rule, currency, date) => AccrueEventKeeps(s, user, rule, currency, date);
    case RecalculateInterest(user, rule, currency, from, to) => RecalculateEventKeeps(s, user, rule, currency, from,
      to);
  }

  lemma AccountsDoNotMatter(s: Ledger, accounts: map<Id, Account>)
    requires Kept(s)
    ensures Kept(s.(accounts := accounts))
  {
  }

  lemma AbandonKeeps(s: Ledger, i: nat)
    requires Kept(s)
    ensures Kept(Apply(s, AbandonReversal(i)))
  {
    hide Consistent, Core, ReversalsPaired, ReadsStillRight, TransfersMatch, OnlyManualRetired, DistinctIds;
    if i < |s.inFlight| {
      DropsRead(Core(s.tables.txs), s.inFlight, i);
    }
  }

  lemma AccrueEventKeeps(s: Ledger, user: Id, rule: Rule, currency: string, date: nat)
    requires Kept(s)
    ensures Kept(Apply(s, AccrueInterest(user, rule, currency, date)))
  {
    hide AccrueStep, CoreKept, Consistent, Core;
    if OwnedBy(s, rule.account, user) {
      AccrueKeeps(s.tables, rule, currency, date);
      InterestKeeps(s, AccrueStep(s.tables, rule, currency, date));
    }
  }

  lemma RecalculateEventKeeps(s: Ledger, user: Id, rule: Rule, currency: string, from: nat, to: nat)
    requires Kept(s)
    ensures Kept(Apply(s, RecalculateInterest(user, rule, currency, from, to)))
  {
    hide RecalculateStep, CoreKept, Consistent, Core;
    if OwnedBy(s, rule.account, user) {
      RecalculateKeeps(s.tables, rule, currency, from, to);
      InterestKeeps(s, RecalculateStep(s.tables, rule, currency, from, to));
    }
  }

  /** In every run from an empty ledger, whatever the interleaving: accruals pair with confirmed
      deposit-interest rows one to one, a rule posts once per day, reversed rows pair with opposite
      adjustments, reads in flight stay right, and transfer legs match their records. */
  lemma {:induction false} EveryRunKeeps(events: seq<Event>)
    ensures Kept(Play(EMPTY, events))
  {
    hide Kept, Apply;
    if events == [] {
      EmptyIsKept();
    } else {
      EveryRunKeeps(events[..|events| - 1]);
      StepKeeps(Play(EMPTY, events[..|events| - 1]), events[|events| - 1]);
    }
  }

  lemma EmptyIsKept()
    ensures Kept(EMPTY)
  {
  }
}
