/** Many `create`, `confirm`, `cancel` and sweep transactions at once, step by step, with inventory rows locked until
    commit.

    Each transaction works on private copies of the rows it has locked; a commit publishes them. The unlocked
    reads of `create` name rows of the right products, with any contents at all; those of `confirm` and `cancel`
    return the reservation as it is committed at that moment, which may be stale by the time it is used. A lock is
    granted only when no other transaction has the row, and the locked read returns the committed row. An inserted
    order holds its unique key, and the updated reservation its row, until the end. A sweep has its batch of
    reservations locked, and skips those that another transaction has. A transaction may roll back at any point:
    that is what every exception does.
  */
module Interleaving {
  import opened Tables
  import opened Schemas
  import opened Queries
  import opened Transactions
  import opened Operations
  import opened Settlement
  import opened Booking
  import opened Steps
  import opened Runs
  import opened Sweeps
  import opened Closers
  import opened Sweepers

  /** A `create` in flight: what it was asked, what it read, the rows it chose, its private copies of those
      it has locked, and the items it has stored so far with the answers that decided them. */
  datatype Creating = Creating(
    userId: string, lines: seq<Line>, expiresAt: int,
    seen: seq<Option<Read>>, ids: seq<nat>, rows: seq<Inventory>, items: seq<Item>, outs: seq<HoldOutcome>)

  datatype Txn =
    | Idle
    | Reading(userId: string, lines: seq<Line>, expiresAt: int)
    | Locking(c: Creating)
    | Holding(c: Creating)
    | Starting(rid: int, purpose: Purpose)
    | Settling(f: Closing)
    | Inserted(f: Closing)
    | Sweeping(w: Sweeper)

  /** The committed databases so far, the requests that committed them, and the running transactions. */
  datatype Sys = Sys(history: seq<Db>, log: seq<Op>, txns: seq<Txn>)

  datatype Action =
    | BeginCreate(userId: string, lines: seq<Line>, expiresAt: int)
    | Preflight(seen: seq<Option<Read>>)
    | LockRow
    | ReserveRows
    | HoldStock(out: HoldOutcome)
    | CommitCreate
    | BeginClose(rid: int, purpose: Purpose)
    | ReadReservation
    | SettleItem(answer: ConfirmOutcome)
    | RaiseOnItem(answer: ConfirmOutcome)
    | FlushOrder
    | CommitConfirm
    | CommitCancel
    | SkipCancel
    | PickBatch(now: int, batch: seq<nat>, unsent: set<Call>)
    | ReleaseStock
    | CommitSweep
    | Rollback

  function Committed(s: Sys): Db
    requires s.history != []
  {
    s.history[|s.history| - 1]
  }

  /** The rows a `create`, `confirm` or `cancel` will lock, in order. */
  function Targets(txn: Txn): seq<nat> {
    match txn
    case Locking(c) => c.ids
    case Holding(c) => c.ids
    case Settling(f) => RowsOf(f.res.items)
    case Inserted(f) => RowsOf(f.res.items)
    case _ => []
  }

  /** Its private copies of the rows it has locked so far. */
  function Copies(txn: Txn): seq<Inventory> {
    match txn
    case Locking(c) => c.rows
    case Holding(c) => c.rows
    case Settling(f) => f.rows
    case Inserted(f) => f.rows
    case _ => []
  }

  /** The transaction has this row locked. */
  ghost predicate HasLock(txn: Txn, row: nat) {
    if txn.Sweeping? then row in txn.w.rows
    else exists j | 0 <= j < |Copies(txn)| && j < |Targets(txn)| :: Targets(txn)[j] == row
  }

  /** The transaction has this reservation's row locked. */
  ghost predicate HasReservation(txn: Txn, r: nat) {
    match txn
    case Inserted(f) => f.rid == r
    case Sweeping(w) => r in w.batch
    case _ => false
  }

  ghost predicate ReservationFree(s: Sys, t: nat, r: nat) {
    forall u | 0 <= u < |s.txns| && u != t :: !HasReservation(s.txns[u], r)
  }

  ghost predicate RowFree(s: Sys, t: nat, row: nat) {
    forall u | 0 <= u < |s.txns| && u != t :: !HasLock(s.txns[u], row)
  }

  // ----- Steps -----

  /** Provider type as the row's provider tells it. */
  predicate InternalRow(db: Db, row: Inventory) {
    db.ProviderOf(row.providerId).Some? && db.ProviderOf(row.providerId).value.kind.Internal?
  }

  ghost predicate Enabled(s: Sys, t: nat, a: Action)
    requires s.history != [] && t < |s.txns|
  {
    var db, txn := Committed(s), s.txns[t];
    match a
    case BeginCreate(_, lines, _) => txn.Idle? && ValidRequest(lines)
    case Preflight(seen) =>
      txn.Reading? && |seen| == |txn.lines| && ReadsWell(db, txn.lines, seen)
    case LockRow =>
      && txn.Locking? && CanLock(db, txn.c) && RowFree(s, t, txn.c.ids[|txn.c.rows|])
    case ReserveRows => txn.Locking? && |txn.c.rows| == |txn.c.lines|
    case HoldStock(out) => txn.Holding? && CanHold(db, txn.c, out)
    case CommitCreate => txn.Holding? && |txn.c.items| == |txn.c.lines| && |txn.c.rows| == |txn.c.ids|
    case BeginClose(_, _) => txn.Idle?
    case ReadReservation => txn.Starting? && MayClose(db, txn.rid, txn.purpose)
    case SettleItem(answer) =>
      txn.Settling? && CanSettle(db, txn.f, answer) && RowFree(s, t, txn.f.res.items[|txn.f.rows|].inventoryId)
    case RaiseOnItem(answer) =>
      txn.Settling? && CanRaise(db, txn.f, answer) && RowFree(s, t, txn.f.res.items[|txn.f.rows|].inventoryId)
    case FlushOrder =>
      && txn.Settling? && txn.f.purpose.ToConfirm? && |txn.f.rows| == |txn.f.res.items|
      && ReservationFree(s, t, txn.f.rid) && !HasOrder(db.orders, txn.f.rid)
    case CommitConfirm =>
      && txn.Inserted? && txn.f.purpose.ToConfirm? && |txn.f.rows| == |txn.f.res.items|
      && txn.f.rid < |db.reservations|
    case CommitCancel =>
      && txn.Settling? && txn.f.purpose.ToCancel? && |txn.f.rows| == |txn.f.res.items|
      && txn.f.rid < |db.reservations| && ReservationFree(s, t, txn.f.rid)
    case SkipCancel =>
      && txn.Starting? && txn.purpose.ToCancel? && 0 <= txn.rid < |db.reservations|
      && (db.reservations[txn.rid].status == Cancelled || db.reservations[txn.rid].status == Expired)
    case PickBatch(now, batch, _) =>
      txn.Idle? && SweepsExpired(db, now, batch) && forall r: nat | r in batch :: ReservationFree(s, t, r)
    case ReleaseStock =>
      && txn.Sweeping? && CanRelease(db, txn.w)
      && var item := ItemsOf(txn.w)[txn.w.done];
         IsSettled(item) || RowFree(s, t, item.inventoryId)
    case CommitSweep => txn.Sweeping? && txn.w.done == |ItemsOf(txn.w)| && |txn.w.res| == |txn.w.batch|
    case Rollback => !txn.Idle?
  }

  /** The pre-flight reads passed, and named rows of the right products. */
  ghost predicate ReadsWell(db: Db, lines: seq<Line>, seen: seq<Option<Read>>)
    requires |seen| == |lines|
  {
    && PreflightError(seen, lines, 0).None? && ReadsProducts(db, lines, seen)
    && forall j | 0 <= j < |seen| :: seen[j].value.id < |db.inventory|
  }

  predicate CanLock(db: Db, c: Creating) {
    && |c.rows| < |c.lines| == |c.ids| && c.ids[|c.rows|] < |db.inventory|
    && c.lines[|c.rows|].qty <= db.inventory[c.ids[|c.rows|]].Effective()
  }

  function Locked(db: Db, c: Creating): Creating
    requires CanLock(db, c)
  {
    c.(rows := c.rows + [db.inventory[c.ids[|c.rows|]]])
  }

  function Reserved(c: Creating): (r: Creating)
    requires |c.rows| == |c.lines|
  {
    c.(rows := seq(|c.rows|, j requires 0 <= j < |c.rows| => c.rows[j].Reserve(c.lines[j].qty)),
       items := [], outs := [])
  }

  predicate CanHold(db: Db, c: Creating, out: HoldOutcome) {
    && |c.items| < |c.lines| == |c.rows| == |c.ids|
    && var row, line := c.rows[|c.items|], c.lines[|c.items|];
       && db.ProviderOf(row.providerId).Some?
       && if InternalRow(db, row) then line.qty <= row.Effective() else RemoteAccepts(out)
  }

  function HeldOne(db: Db, c: Creating, out: HoldOutcome): Creating
    requires CanHold(db, c, out)
  {
    var k := |c.items|;
    var row, line, isInternal := c.rows[k], c.lines[k], InternalRow(db, c.rows[k]);
    c.(rows := if isInternal then c.rows[k := row.Reserve(line.qty)] else c.rows,
       items := c.items + [StoredItem(row, isInternal, c.ids[k], line, out)],
       outs := c.outs + [out])
  }

  /** The database a `create` commits. */
  function Created(db: Db, c: Creating): Db
    requires |c.rows| == |c.ids|
  {
    db.(inventory := WriteRows(db.inventory, c.ids, c.rows, 0),
        reservations := db.reservations + [Reservation(c.userId, Pending, c.expiresAt, c.items)])
  }

  /** The transaction after its step. */
  ghost function After(s: Sys, t: nat, a: Action): Txn
    requires s.history != [] && t < |s.txns| && Enabled(s, t, a)
  {
    var db, txn := Committed(s), s.txns[t];
    match a
    case BeginCreate(userId, lines, expiresAt) => Reading(userId, lines, expiresAt)
    case Preflight(seen) => Locking(Creating(txn.userId, txn.lines, txn.expiresAt, seen, IdsOf(seen), [], [], []))
    case LockRow => Locking(Locked(db, txn.c))
    case ReserveRows => Holding(Reserved(txn.c))
    case HoldStock(out) => Holding(HeldOne(db, txn.c, out))
    case BeginClose(rid, purpose) => Starting(rid, purpose)
    case ReadReservation => Settling(Closing(txn.rid, txn.purpose, db.reservations[txn.rid], []))
    case SettleItem(answer) => Settling(SettledNext(db, txn.f, answer))
    case RaiseOnItem(_) => Idle
    case FlushOrder => Inserted(txn.f)
    case CommitCreate => Idle
    case CommitConfirm => Idle
    case CommitCancel => Idle
    case SkipCancel => Idle
    case PickBatch(now, batch, unsent) =>
      assert forall b | 0 <= b < |batch| :: IsExpiredPending(db, now, batch[b]);
      Sweeping(Picked(db, now, batch, unsent))
    case ReleaseStock => Sweeping(ReleasedOne(db, txn.w))
    case CommitSweep => Idle
    case Rollback => Idle
  }

  ghost function Next(s: Sys, t: nat, a: Action): Sys
    requires s.history != [] && t < |s.txns| && Enabled(s, t, a)
  {
    var db, txn, txns := Committed(s), s.txns[t], s.txns[t := After(s, t, a)];
    match a
    case CommitCreate => Sys(s.history + [Created(db, txn.c)], s.log + [CreateOp(txn.c)], txns)
    case CommitConfirm => Sys(s.history + [ClosedDb(db, txn.f)], s.log + [CloseOp(txn.f)], txns)
    case CommitCancel => Sys(s.history + [ClosedDb(db, txn.f)], s.log + [CloseOp(txn.f)], txns)
    case SkipCancel => Sys(s.history + [db], s.log + [Cancel(txn.rid, txn.purpose.unsent)], txns)
    case CommitSweep => Sys(s.history + [SweptDb(db, txn.w)], s.log + [SweepOp(txn.w)], txns)
    case _ => s.(txns := txns)
  }

  /** The request of a committing transaction. */
  function CreateOp(c: Creating): Op { Create(c.userId, c.lines, c.seen, c.outs, c.expiresAt) }

  // ----- The invariant of a transaction in flight -----

  ghost predicate ReadOk(db: Db, c: Creating) {
    && ValidRequest(c.lines) && |c.seen| == |c.lines| && ReadsWell(db, c.lines, c.seen) && c.ids == IdsOf(c.seen)
  }

  ghost predicate LocksCurrent(db: Db, c: Creating) {
    && ReadOk(db, c) && |c.rows| <= |c.ids|
    && forall k | 0 <= k < |c.rows| :: c.rows[k] == db.inventory[c.ids[k]] && c.lines[k].qty <= c.rows[k].Effective()
  }

  ghost predicate HoldsCurrent(db: Db, c: Creating) {
    && ReadOk(db, c) && |c.rows| == |c.ids| && |c.items| == |c.outs| <= |c.lines|
    && forall k | 0 <= k < |c.ids| :: LineCurrent(db, c, k)
  }

  /** Line `k` of a holding transaction, against the committed row that it has locked. */
  ghost predicate LineCurrent(db: Db, c: Creating, k: nat)
    requires k < |c.ids| == |c.rows| == |c.lines| && |c.items| == |c.outs| && c.ids[k] < |db.inventory|
  {
    var id, line := c.ids[k], c.lines[k];
    && line.qty <= db.inventory[id].Effective()
    && if k < |c.items| then
         && c.rows[k] == db.inventory[id].Reserve(Weight(db, id) * line.qty)
         && c.items[k] == HeldItem(db, id, line, c.outs[k])
         && Grants(db, id, line, c.outs[k], 2)
       else c.rows[k] == db.inventory[id].Reserve(line.qty)
  }

  ghost predicate TxnOk(db: Db, txn: Txn) {
    match txn
    case Idle => true
    case Reading(_, lines, _) => ValidRequest(lines)
    case Locking(c) => LocksCurrent(db, c)
    case Holding(c) => HoldsCurrent(db, c)
    case Starting(_, _) => true
    case Settling(f) => SettlesCurrent(db, f)
    case Inserted(f) => SettlesCurrent(db, f) && |f.rows| == |f.res.items|
    case Sweeping(w) => SweepsCurrent(db, w)
  }

  /** No two transactions hold one row, of inventory or of a reservation. */
  ghost predicate Exclusive(txns: seq<Txn>) {
    && (forall t, u, row: nat | 0 <= t < |txns| && 0 <= u < |txns| && t != u && HasLock(txns[t], row) ::
          !HasLock(txns[u], row))
    && (forall t, u, r: nat | 0 <= t < |txns| && 0 <= u < |txns| && t != u && HasReservation(txns[t], r) ::
          !HasReservation(txns[u], r))
  }

  /** The requests that these transactions serve. */
  predicate Interleaves(op: Op) { !op.Sync? }

  /** Every commit so far was exactly the atomic transaction of its request, on the database of that moment. */
  ghost predicate CommitsAreAtomic(s: Sys) {
    forall i | 0 <= i < |s.log| && i + 1 < |s.history| ::
      && Interleaves(s.log[i])
      && ValidOp(s.history[i], s.log[i]) && Attempt(s.history[i], s.log[i]) == Ok(s.history[i + 1])
  }

  ghost predicate SysInv(s: Sys) {
    && s.history != [] && IsRun(s.history, s.log) && CommitsAreAtomic(s)
    && (forall t | 0 <= t < |s.txns| :: TxnOk(Committed(s), s.txns[t]))
    && Exclusive(s.txns)
  }

  // ----- Commits are atomic transactions -----

  /** A `create` that has locked all its rows and held all its items commits what it would do alone, now. */
  lemma CommitCreateIsAtomic(db: Db, c: Creating)
    requires HoldsCurrent(db, c) && |c.items| == |c.lines|
    ensures ValidOp(db, CreateOp(c)) && Attempt(db, CreateOp(c)) == Ok(Created(db, c))
  {
    forall k | 0 <= k < |c.lines| ensures LineFits(db, c.lines[k], c.seen[k], c.outs[k]) {
      assert LineCurrent(db, c, k);
    }
    CreateEffect(db, c.userId, c.lines, c.seen, c.outs, c.expiresAt);
    var after := Attempt(db, CreateOp(c)).value;
    forall k | 0 <= k < |c.ids|
      ensures c.rows[k] == BookedRows(db, c.ids, c.lines)[k]
      ensures c.items[k] == HeldItems(db, c.ids, c.lines, c.outs, 0)[k]
    {
      assert LineCurrent(db, c, k);
      assert HeldItems(db, c.ids, c.lines, c.outs, 0)[k] == HeldItem(db, c.ids[0 + k], c.lines[0 + k], c.outs[0 + k]);
    }
    assert c.rows == BookedRows(db, c.ids, c.lines);
    assert c.items == HeldItems(db, c.ids, c.lines, c.outs, 0);
    WriteRowsRewrites(db.inventory, c.ids, c.rows, 0);
    RewrittenUnique(db.inventory, after.inventory, Created(db, c).inventory, c.ids, c.rows);
  }

  // ----- What a commit means to the other transactions -----

  /** The transaction is closing this reservation on the strength of an unlocked read. */
  predicate Follows(txn: Txn, r: nat) { txn.Settling? && txn.f.rid == r }

  /** A commit that leaves this transaction's rows alone. */
  ghost predicate LeavesAlone(db: Db, after: Db, txn: Txn) {
    && after.providers == db.providers && |after.inventory| == |db.inventory|
    && (forall i | 0 <= i < |db.inventory| ::
          && after.inventory[i].productId == db.inventory[i].productId
          && after.inventory[i].providerId == db.inventory[i].providerId)
    && (forall i: nat | i < |db.inventory| && HasLock(txn, i) :: after.inventory[i] == db.inventory[i])
    && |db.reservations| <= |after.reservations|
    && (forall r: nat | r < |db.reservations| && Follows(txn, r) ::
          Evolves(db.reservations[r], after.reservations[r]))
    && (forall r: nat | r < |db.reservations| && HasReservation(txn, r) ::
          after.reservations[r] == db.reservations[r])
  }

  lemma LockedRowKept(db: Db, after: Db, txn: Txn, j: nat)
    requires LeavesAlone(db, after, txn) && j < |Copies(txn)| && j < |Targets(txn)| && Targets(txn)[j] < |db.inventory|
    ensures Targets(txn)[j] < |after.inventory| && after.inventory[Targets(txn)[j]] == db.inventory[Targets(txn)[j]]
  {
    assert HasLock(txn, Targets(txn)[j]);
  }

  lemma HoldingSurvives(db: Db, after: Db, c: Creating)
    requires HoldsCurrent(db, c) && LeavesAlone(db, after, Holding(c))
    ensures HoldsCurrent(after, c)
  {
    forall k | 0 <= k < |c.ids| ensures LineCurrent(after, c, k) {
      assert LineCurrent(db, c, k);
      LockedRowKept(db, after, Holding(c), k);
    }
  }

  lemma LockingSurvives(db: Db, after: Db, c: Creating)
    requires LocksCurrent(db, c) && LeavesAlone(db, after, Locking(c))
    ensures LocksCurrent(after, c)
  {
    forall k | 0 <= k < |c.rows| ensures c.rows[k] == after.inventory[c.ids[k]] {
      LockedRowKept(db, after, Locking(c), k);
    }
  }

  lemma TxnSurvivesCommit(db: Db, after: Db, txn: Txn)
    requires TxnOk(db, txn) && LeavesAlone(db, after, txn)
    ensures TxnOk(after, txn)
  {
    match txn
    case Holding(c) => HoldingSurvives(db, after, c);
    case Locking(c) => LockingSurvives(db, after, c);
    case Settling(f) => SettlingSurvives(db, after, f, txn);
    case Inserted(f) => SettlingSurvives(db, after, f, txn);
    case Sweeping(w) => SweepingSurvives(db, after, w);
    case _ =>
  }

  lemma SettlingSurvives(db: Db, after: Db, f: Closing, txn: Txn)
    requires SettlesCurrent(db, f) && LeavesAlone(db, after, txn) && (txn == Settling(f) || txn == Inserted(f))
    ensures SettlesCurrent(after, f)
  {
    assert Follows(txn, f.rid) || HasReservation(txn, f.rid);
    EvolvesTransitive(f.res, db.reservations[f.rid], after.reservations[f.rid]);
    forall k | 0 <= k < |f.rows|
      ensures f.rows[k] ==
              SettleRow(f.purpose.Kind(), after.inventory[f.res.items[k].inventoryId], f.res.items[k].qty)
    {
      LockedRowKept(db, after, txn, k);
    }
  }

  lemma SweepingSurvives(db: Db, after: Db, w: Sweeper)
    requires SweepsCurrent(db, w) && LeavesAlone(db, after, Sweeping(w))
    ensures SweepsCurrent(after, w)
  {
    forall b | 0 <= b < |w.batch| ensures IsExpiredPending(after, w.now, w.batch[b]) {
      assert IsExpiredPending(db, w.now, w.batch[b]) && HasReservation(Sweeping(w), w.batch[b]);
    }
    forall b | 0 <= b < |w.batch| ensures w.res[b] == after.reservations[w.batch[b]] {
      assert HasReservation(Sweeping(w), w.batch[b]);
    }
    forall i: nat | i < |after.inventory| ensures FreedSoFar(after, w, i) {
      assert FreedSoFar(db, w, i);
      assert i in w.rows ==> HasLock(Sweeping(w), i);
    }
  }

  lemma OtherRowsUnwritten(db: Db, mine: Txn, txn: Txn, rows: seq<Inventory>)
    requires |rows| == |Targets(mine)| == |Copies(mine)|
    requires Distinct(Targets(mine)) && InRange(Targets(mine), |db.inventory|)
    requires forall row: nat :: HasLock(mine, row) ==> !HasLock(txn, row)
    ensures forall i: nat | i < |db.inventory| && HasLock(txn, i) ::
              WriteRows(db.inventory, Targets(mine), rows, 0)[i] == db.inventory[i]
  {
    var ids := Targets(mine);
    WriteRowsRewrites(db.inventory, ids, rows, 0);
    forall i: nat | i < |db.inventory| && HasLock(txn, i)
      ensures WriteRows(db.inventory, ids, rows, 0)[i] == db.inventory[i]
    {
      forall j | 0 <= j < |ids| ensures ids[j] != i {
        assert HasLock(mine, ids[j]);
      }
    }
  }

  lemma RowsKeepTheirProducts(init: seq<Inventory>, db: Db, after: Db)
    requires Inv(init, db) && Inv(init, after)
    ensures |after.inventory| == |db.inventory|
    ensures forall i | 0 <= i < |db.inventory| ::
              && after.inventory[i].productId == db.inventory[i].productId
              && after.inventory[i].providerId == db.inventory[i].providerId
  {}

  /** No lock is shared, so a `create`'s commit leaves every other transaction alone. */
  lemma CreateLeavesAlone(init: seq<Inventory>, db: Db, c: Creating, txn: Txn)
    requires Inv(init, db) && HoldsCurrent(db, c) && Inv(init, Created(db, c))
    requires Distinct(c.ids) && forall row: nat :: HasLock(Holding(c), row) ==> !HasLock(txn, row)
    ensures LeavesAlone(db, Created(db, c), txn)
  {
    hide Inv, WriteRows, LineCurrent, HasLock;
    OtherRowsUnwritten(db, Holding(c), txn, c.rows);
    RowsKeepTheirProducts(init, db, Created(db, c));
  }

  /** A closing commit leaves every other transaction alone, if it closes a pending reservation. */
  lemma CloseLeavesAlone(init: seq<Inventory>, db: Db, f: Closing, mine: Txn, txn: Txn)
    requires Inv(init, db) && SettlesCurrent(db, f) && |f.rows| == |f.res.items| && !Overtaken(db, f)
    requires Inv(init, ClosedDb(db, f)) && (mine == Settling(f) || mine == Inserted(f))
    requires forall row: nat :: HasLock(mine, row) ==> !HasLock(txn, row)
    requires !HasReservation(txn, f.rid)
    ensures LeavesAlone(db, ClosedDb(db, f), txn)
  {
    hide Inv, SettlingCalls, WriteRows, HasLock, RowsCurrent, AnswersCurrent;
    assert Distinct(Targets(mine)) && InRange(Targets(mine), |db.inventory|);
    OtherRowsUnwritten(db, mine, txn, f.rows);
    RowsKeepTheirProducts(init, db, ClosedDb(db, f));
  }

  /** A sweep's commit writes rows that only it has locked, and closes reservations that nobody else is closing. */
  lemma SweepLeavesAlone(init: seq<Inventory>, db: Db, w: Sweeper, txn: Txn)
    requires Inv(init, db) && SweepsCurrent(db, w) && Inv(init, SweptDb(db, w))
    requires forall row: nat :: HasLock(Sweeping(w), row) ==> !HasLock(txn, row)
    requires forall r: nat :: HasReservation(Sweeping(w), r) ==> !HasReservation(txn, r)
    ensures LeavesAlone(db, SweptDb(db, w), txn)
  {
    RowsKeepTheirProducts(init, db, SweptDb(db, w));
    forall r: nat | r < |db.reservations|
      ensures Evolves(db.reservations[r], SweptDb(db, w).reservations[r])
      ensures HasReservation(txn, r) ==> SweptDb(db, w).reservations[r] == db.reservations[r]
    {
      if r in w.batch {
        assert HasReservation(Sweeping(w), r);
        var b :| 0 <= b < |w.batch| && w.batch[b] == r;
        assert IsExpiredPending(db, w.now, w.batch[b]);
      }
    }
    forall i: nat | i < |db.inventory| && HasLock(txn, i)
      ensures SweptDb(db, w).inventory[i] == db.inventory[i]
    {
      assert !HasLock(Sweeping(w), i);
    }
  }

  // ----- Steps keep the invariant -----

  lemma ReserveKeepsCurrent(db: Db, c: Creating)
    requires LocksCurrent(db, c) && |c.rows| == |c.lines|
    ensures HoldsCurrent(db, Reserved(c))
  {
    forall k | 0 <= k < |c.ids| ensures LineCurrent(db, Reserved(c), k) {}
  }

  lemma LockKeepsCurrent(db: Db, c: Creating)
    requires LocksCurrent(db, c) && CanLock(db, c)
    ensures LocksCurrent(db, Locked(db, c))
  {}

  predicate Commits(a: Action) {
    a.CommitCreate? || a.CommitConfirm? || a.CommitCancel? || a.SkipCancel? || a.CommitSweep?
  }

  /** A step that commits nothing keeps its own transaction sound. */
  lemma OwnStep(init: seq<Inventory>, s: Sys, t: nat, a: Action)
    requires s.history != [] && t < |s.txns| && Enabled(s, t, a) && !Commits(a)
    requires Inv(init, Committed(s)) && TxnOk(Committed(s), s.txns[t])
    ensures TxnOk(Committed(s), After(s, t, a))
  {
    var db, txn := Committed(s), s.txns[t];
    match a
    case LockRow => LockKeepsCurrent(db, txn.c);
    case ReserveRows => ReserveKeepsCurrent(db, txn.c);
    case HoldStock(out) => HoldKeepsCurrent(db, txn.c, out);
    case ReadReservation => ReadIsCurrent(init, db, txn.rid, txn.purpose);
    case SettleItem(answer) => SettleKeepsCurrent(db, txn.f, answer);
    case PickBatch(now, batch, unsent) => PickedIsCurrent(db, now, batch, unsent);
    case ReleaseStock => ReleaseKeepsCurrent(init, db, txn.w);
    case _ =>
  }

  lemma HoldKeepsCurrent(db: Db, c: Creating, out: HoldOutcome)
    requires HoldsCurrent(db, c) && CanHold(db, c, out)
    ensures HoldsCurrent(db, HeldOne(db, c, out))
  {
    var held, k := HeldOne(db, c, out), |c.items|;
    assert LineCurrent(db, c, k);
    forall j | 0 <= j < |c.ids| ensures LineCurrent(db, held, j) {
      assert LineCurrent(db, c, j);
    }
  }

  /** `next` has the locks of `txn`, and at most one more, on `row`. */
  ghost predicate LocksAtMost(txn: Txn, next: Txn, row: nat) {
    forall i: nat | i != row && HasLock(next, i) :: HasLock(txn, i)
  }

  lemma SameTargetsOneMore(txn: Txn, next: Txn)
    requires !txn.Sweeping? && !next.Sweeping?
    requires Targets(next) == Targets(txn) && |Copies(next)| <= |Copies(txn)| + 1
    requires |Copies(txn)| < |Targets(txn)|
    ensures LocksAtMost(txn, next, Targets(txn)[|Copies(txn)|])
  {
    forall i: nat | i != Targets(txn)[|Copies(txn)|] && HasLock(next, i) ensures HasLock(txn, i) {
      var j :| 0 <= j < |Copies(next)| && j < |Targets(next)| && Targets(next)[j] == i;
      assert Targets(txn)[j] == i;
    }
  }

  lemma SameTargetsNoMore(txn: Txn, next: Txn, row: nat)
    requires !txn.Sweeping? && !next.Sweeping?
    requires Targets(next) == Targets(txn) && |Copies(next)| <= |Copies(txn)|
    requires HasLock(next, row)
    ensures HasLock(txn, row)
  {
    var j :| 0 <= j < |Copies(next)| && j < |Targets(next)| && Targets(next)[j] == row;
    assert Targets(txn)[j] == row;
  }

  /** The rows a step adds to its transaction's locks were free. */
  lemma StepLocksFreeRows(s: Sys, t: nat, a: Action, row: nat)
    requires s.history != [] && t < |s.txns| && Enabled(s, t, a) && TxnOk(Committed(s), s.txns[t])
    requires HasLock(After(s, t, a), row)
    ensures HasLock(s.txns[t], row) || RowFree(s, t, row)
  {
    var txn, next := s.txns[t], After(s, t, a);
    match a
    case LockRow => SameTargetsOneMore(txn, next);
    case SettleItem(_) => SameTargetsOneMore(txn, next);
    case ReserveRows => SameTargetsNoMore(txn, next, row);
    case HoldStock(_) => SameTargetsNoMore(txn, next, row);
    case FlushOrder => SameTargetsNoMore(txn, next, row);
    case _ =>
  }

  /** The reservations a step locks were free. */
  lemma StepLocksFreeReservations(s: Sys, t: nat, a: Action, r: nat)
    requires s.history != [] && t < |s.txns| && Enabled(s, t, a)
    requires HasReservation(After(s, t, a), r)
    ensures HasReservation(s.txns[t], r) || ReservationFree(s, t, r)
  {}

  lemma StepKeepsExclusive(s: Sys, t: nat, a: Action)
    requires s.history != [] && t < |s.txns| && Enabled(s, t, a) && TxnOk(Committed(s), s.txns[t])
    requires Exclusive(s.txns)
    ensures Exclusive(s.txns[t := After(s, t, a)])
  {
    var txns := s.txns[t := After(s, t, a)];
    forall v, u, row: nat | 0 <= v < |txns| && 0 <= u < |txns| && v != u && HasLock(txns[v], row)
      ensures !HasLock(txns[u], row)
    {
      if v == t {
        StepLocksFreeRows(s, t, a, row);
      } else if u == t && HasLock(txns[u], row) {
        StepLocksFreeRows(s, t, a, row);
      }
    }
    forall v, u, r: nat | 0 <= v < |txns| && 0 <= u < |txns| && v != u && HasReservation(txns[v], r)
      ensures !HasReservation(txns[u], r)
    {
      if v == t {
        StepLocksFreeReservations(s, t, a, r);
      } else if u == t && HasReservation(txns[u], r) {
        StepLocksFreeReservations(s, t, a, r);
      }
    }
  }

  // ----- Executions -----

  /** A step that is not a commit. */
  lemma QuietStep(s: Sys, t: nat, a: Action)
    requires SysInv(s) && t < |s.txns| && Enabled(s, t, a) && !Commits(a)
    ensures SysInv(Next(s, t, a))
  {
    hide Inv, TxnOk, Exclusive;
    RunKeepsInv(s.history, s.log, |s.history| - 1);
    OwnStep(s.history[0].inventory, s, t, a);
    StepKeepsExclusive(s, t, a);
  }

  /** Appending a request that succeeds atomically to a run gives a run. */
  lemma RunGrows(s: Sys, after: Db, op: Op)
    requires s.history != [] && IsRun(s.history, s.log) && CommitsAreAtomic(s) && Interleaves(op)
    requires ValidOp(Committed(s), op) && Attempt(Committed(s), op) == Ok(after)
    ensures IsRun(s.history + [after], s.log + [op])
    ensures CommitsAreAtomic(Sys(s.history + [after], s.log + [op], s.txns))
  {
    var history, log := s.history + [after], s.log + [op];
    forall i | 0 <= i < |log|
      ensures ValidOp(history[i], log[i]) && history[i + 1] == Apply(history[i], log[i])
      ensures Interleaves(log[i]) && Attempt(history[i], log[i]) == Ok(history[i + 1])
    {
      if i < |s.log| {
        assert history[i] == s.history[i] && history[i + 1] == s.history[i + 1] && log[i] == s.log[i];
      }
    }
  }

  lemma OthersSurvive(s: Sys, t: nat, after: Db)
    requires s.history != [] && t < |s.txns| && forall u | 0 <= u < |s.txns| :: TxnOk(Committed(s), s.txns[u])
    requires forall u | 0 <= u < |s.txns| && u != t :: LeavesAlone(Committed(s), after, s.txns[u])
    ensures forall u | 0 <= u < |s.txns| && u != t :: TxnOk(after, s.txns[u])
  {
    forall u | 0 <= u < |s.txns| && u != t ensures TxnOk(after, s.txns[u]) {
      TxnSurvivesCommit(Committed(s), after, s.txns[u]);
    }
  }

  /** After a commit everything is in order, if it was atomic and left the other transactions alone. */
  lemma CommitKeepsInv(s: Sys, t: nat, after: Db, op: Op)
    requires SysInv(s) && t < |s.txns| && Exclusive(s.txns[t := Idle])
    requires Interleaves(op) && ValidOp(Committed(s), op) && Attempt(Committed(s), op) == Ok(after)
    requires forall u | 0 <= u < |s.txns| && u != t :: LeavesAlone(Committed(s), after, s.txns[u])
    ensures SysInv(Sys(s.history + [after], s.log + [op], s.txns[t := Idle]))
  {
    RunGrows(s, after, op);
    OthersSurvive(s, t, after);
  }

  lemma CommitCreateStep(s: Sys, t: nat)
    requires SysInv(s) && t < |s.txns| && Enabled(s, t, CommitCreate)
    ensures SysInv(Next(s, t, CommitCreate))
  {
    var db, c, init := Committed(s), s.txns[t].c, s.history[0].inventory;
    assert TxnOk(db, s.txns[t]);
    RunKeepsInv(s.history, s.log, |s.history| - 1);
    CommitCreateIsAtomic(db, c);
    assert Inv(init, Created(db, c)) by {
      ApplyKeepsInv(init, db, CreateOp(c));
    }
    DistinctProductsDistinctRows(db, c.lines, c.seen, c.outs);
    forall u | 0 <= u < |s.txns| && u != t ensures LeavesAlone(db, Created(db, c), s.txns[u]) {
      CreateLeavesAlone(init, db, c, s.txns[u]);
    }
    StepKeepsExclusive(s, t, CommitCreate);
    CommitKeepsInv(s, t, Created(db, c), CreateOp(c));
  }

  /** The step commits a closing transaction that somebody else has overtaken, and that has something to write. */
  predicate Spoils(s: Sys, t: nat, a: Action)
    requires s.history != [] && t < |s.txns|
  {
    && (a.CommitConfirm? || a.CommitCancel?) && (s.txns[t].Settling? || s.txns[t].Inserted?)
    && s.txns[t].f.rid < |Committed(s).reservations|
    && Overtaken(Committed(s), s.txns[t].f) && !Repeats(Committed(s), s.txns[t].f)
  }

  lemma ClosesLeaveOthers(s: Sys, t: nat, a: Action, u: nat)
    requires SysInv(s) && t < |s.txns| && u < |s.txns| && u != t && (a.CommitConfirm? || a.CommitCancel?)
    requires Enabled(s, t, a) && Inv(s.history[0].inventory, Committed(s))
    requires TxnOk(Committed(s), s.txns[t]) && !Overtaken(Committed(s), s.txns[t].f)
    requires Inv(s.history[0].inventory, ClosedDb(Committed(s), s.txns[t].f))
    ensures LeavesAlone(Committed(s), ClosedDb(Committed(s), s.txns[t].f), s.txns[u])
  {
    hide Inv, IsRun, CommitsAreAtomic, ClosedDb;
    var f := s.txns[t].f;
    assert HasReservation(s.txns[t], f.rid) || ReservationFree(s, t, f.rid);
    CloseLeavesAlone(s.history[0].inventory, Committed(s), f, s.txns[t], s.txns[u]);
  }

  lemma NothingLeavesAlone(db: Db, txn: Txn)
    ensures LeavesAlone(db, db, txn)
  {}

  /** The commit of a closing transaction is atomic exactly when it does not spoil. */
  lemma CloseIsAtomic(s: Sys, t: nat, a: Action)
    requires SysInv(s) && t < |s.txns| && (a.CommitConfirm? || a.CommitCancel?) && Enabled(s, t, a)
    ensures
      var db, f := Committed(s), s.txns[t].f;
      && Inv(s.history[0].inventory, db) && TxnOk(db, s.txns[t]) && SettlesCurrent(db, f) && ValidOp(db, CloseOp(f))
      && (Attempt(db, CloseOp(f)) == Ok(ClosedDb(db, f)) <==> !Spoils(s, t, a))
      && (Overtaken(db, f) && !Spoils(s, t, a) ==> ClosedDb(db, f) == db)
  {
    var db, f, init := Committed(s), s.txns[t].f, s.history[0].inventory;
    assert TxnOk(db, s.txns[t]);
    RunKeepsInv(s.history, s.log, |s.history| - 1);
    CommitIsAtomic(init, db, f);
    if Overtaken(db, f) && Repeats(db, f) {
      RepeatsWriteNothing(db, f);
    }
  }

  lemma CommitCloseStep(s: Sys, t: nat, a: Action)
    requires SysInv(s) && t < |s.txns| && (a.CommitConfirm? || a.CommitCancel?) && Enabled(s, t, a)
    requires !Spoils(s, t, a)
    ensures SysInv(Next(s, t, a))
  {
    hide Inv, IsRun, CommitsAreAtomic, ClosedDb, Overtaken, Repeats, Attempt;
    var db, f, init := Committed(s), s.txns[t].f, s.history[0].inventory;
    CloseIsAtomic(s, t, a);
    forall u | 0 <= u < |s.txns| && u != t ensures LeavesAlone(db, ClosedDb(db, f), s.txns[u]) {
      if Overtaken(db, f) {
        NothingLeavesAlone(db, s.txns[u]);
      } else {
        AtomicKeepsInv(init, db, ClosedDb(db, f), CloseOp(f));
        ClosesLeaveOthers(s, t, a, u);
      }
    }
    StepKeepsExclusive(s, t, a);
    CommitKeepsInv(s, t, ClosedDb(db, f), CloseOp(f));
  }

  lemma AtomicKeepsInv(init: seq<Inventory>, db: Db, after: Db, op: Op)
    requires Inv(init, db) && ValidOp(db, op) && Attempt(db, op) == Ok(after)
    ensures Inv(init, after)
  {
    ApplyKeepsInv(init, db, op);
  }

  /** Cancelling what is already cancelled or expired commits nothing new. */
  lemma SkipCancelStep(s: Sys, t: nat)
    requires SysInv(s) && t < |s.txns| && Enabled(s, t, SkipCancel)
    ensures SysInv(Next(s, t, SkipCancel))
  {
    var db, txn := Committed(s), s.txns[t];
    forall u | 0 <= u < |s.txns| && u != t ensures LeavesAlone(db, db, s.txns[u]) {
      NothingLeavesAlone(db, s.txns[u]);
    }
    StepKeepsExclusive(s, t, SkipCancel);
    CommitKeepsInv(s, t, db, Cancel(txn.rid, txn.purpose.unsent));
  }

  lemma CommitSweepStep(s: Sys, t: nat)
    requires SysInv(s) && t < |s.txns| && Enabled(s, t, CommitSweep)
    ensures SysInv(Next(s, t, CommitSweep))
  {
    var db, w, init := Committed(s), s.txns[t].w, s.history[0].inventory;
    assert TxnOk(db, s.txns[t]);
    RunKeepsInv(s.history, s.log, |s.history| - 1);
    CommitSweepIsAtomic(init, db, w);
    forall u | 0 <= u < |s.txns| && u != t ensures LeavesAlone(db, SweptDb(db, w), s.txns[u]) {
      SweepLeavesAlone(init, db, w, s.txns[u]);
    }
    StepKeepsExclusive(s, t, CommitSweep);
    CommitKeepsInv(s, t, SweptDb(db, w), SweepOp(w));
  }

  /** One step of one of the transactions. */
  datatype Step = Step(t: nat, action: Action)

  /** The states of the system as the steps happen, from an empty database with nothing running. */
  ghost predicate IsExecution(states: seq<Sys>, steps: seq<Step>) {
    && |states| == |steps| + 1
    && |states[0].history| == 1 && Empty(states[0].history[0]) && states[0].log == []
    && (forall t | 0 <= t < |states[0].txns| :: states[0].txns[t].Idle?)
    && forall i | 0 <= i < |steps| ::
         && states[i].history != [] && steps[i].t < |states[i].txns|
         && Enabled(states[i], steps[i].t, steps[i].action)
         && states[i + 1] == Next(states[i], steps[i].t, steps[i].action)
  }

  lemma StepKeepsInv(s: Sys, t: nat, a: Action)
    requires SysInv(s) && t < |s.txns| && Enabled(s, t, a) && !Spoils(s, t, a)
    ensures SysInv(Next(s, t, a))
  {
    hide SysInv, Enabled, Next, Spoils;
    match a
    case CommitCreate => CommitCreateStep(s, t);
    case CommitConfirm => CommitCloseStep(s, t, a);
    case CommitCancel => CommitCloseStep(s, t, a);
    case SkipCancel => SkipCancelStep(s, t);
    case CommitSweep => CommitSweepStep(s, t);
    case _ => QuietStep(s, t, a);
  }

  /** No `confirm` or `cancel` has committed after somebody else closed its reservation behind its back. */
  ghost predicate Unspoiled(states: seq<Sys>, steps: seq<Step>, i: nat)
    requires IsExecution(states, steps) && i < |states|
  {
    forall j | 0 <= j < i :: !Spoils(states[j], steps[j].t, steps[j].action)
  }

  lemma {:induction false} ExecutionKeepsInv(states: seq<Sys>, steps: seq<Step>, i: nat)
    requires IsExecution(states, steps) && i < |states| && Unspoiled(states, steps, i)
    ensures SysInv(states[i])
  {
    hide Enabled, Next, Spoils;
    if i > 0 {
      ExecutionKeepsInv(states, steps, i - 1);
      StepKeepsInv(states[i - 1], steps[i - 1].t, steps[i - 1].action);
    }
  }

  /** The committed databases and the log only grow. */
  lemma {:induction false} HistoryGrows(states: seq<Sys>, steps: seq<Step>, i: nat, j: nat)
    requires IsExecution(states, steps) && i <= j < |states|
    ensures states[i].history <= states[j].history && states[i].log <= states[j].log
    ensures |states[j].history| == |states[j].log| + 1
    decreases j
  {
    hide Enabled;
    if i < j {
      HistoryGrows(states, steps, i, j - 1);
    } else if j > 0 {
      HistoryGrows(states, steps, j - 1, j - 1);
    }
  }

  /** A commit that spoils is not what its request would have done alone. */
  lemma SpoilingIsNotAtomic(s: Sys, t: nat, a: Action, later: Sys)
    requires SysInv(s) && t < |s.txns| && Enabled(s, t, a) && Spoils(s, t, a) && |s.history| == |s.log| + 1
    requires Next(s, t, a).history <= later.history && Next(s, t, a).log <= later.log
    ensures !CommitsAreAtomic(later)
  {
    hide SysInv, ClosedDb, Attempt;
    var i := |s.log|;
    CloseIsAtomic(s, t, a);
    assert later.log[i] == CloseOp(s.txns[t].f) && later.history[i] == Committed(s);
    assert later.history[i + 1] == ClosedDb(Committed(s), s.txns[t].f);
  }

  /** Serializability: however the transactions interleave, the committed databases are those of running the
      committed requests alone, one after another, in commit order, each of them successfully. That is so exactly as
      long as no `confirm` or `cancel` commits after somebody else has closed its reservation behind its back. */
  lemma InterleavingIsSerial(states: seq<Sys>, steps: seq<Step>, i: nat)
    requires IsExecution(states, steps) && i < |states|
    ensures IsRun(states[i].history, states[i].log) && CommitsAreAtomic(states[i]) <==> Unspoiled(states, steps, i)
  {
    if Unspoiled(states, steps, i) {
      ExecutionKeepsInv(states, steps, i);
    } else {
      FirstSpoil(states, steps, i);
    }
  }

  lemma {:induction false} FirstSpoil(states: seq<Sys>, steps: seq<Step>, i: nat)
    requires IsExecution(states, steps) && i < |states| && !Unspoiled(states, steps, i)
    ensures !CommitsAreAtomic(states[i])
  {
    hide Enabled, Next, Spoils, CommitsAreAtomic;
    if Unspoiled(states, steps, i - 1) {
      ExecutionKeepsInv(states, steps, i - 1);
      HistoryGrows(states, steps, i - 1, i - 1);
      SpoilingIsNotAtomic(states[i - 1], steps[i - 1].t, steps[i - 1].action, states[i]);
    } else {
      FirstSpoil(states, steps, i - 1);
      HistoryGrows(states, steps, i - 1, i);
      HistoryGrows(states, steps, i - 1, i - 1);
      PrefixAtomic(states[i - 1], states[i]);
    }
  }

  lemma PrefixAtomic(s: Sys, later: Sys)
    requires s.history <= later.history && s.log <= later.log && |s.history| == |s.log| + 1
    ensures CommitsAreAtomic(later) ==> CommitsAreAtomic(s)
  {
    assert forall i | 0 <= i < |s.log| :: s.log[i] == later.log[i];
    assert forall i | 0 <= i < |s.history| :: s.history[i] == later.history[i];
  }

  /** No oversell under concurrency: every committed row that started sound stays sound. */
  lemma InterleavingNeverOversells(states: seq<Sys>, steps: seq<Step>, i: nat, h: nat, row: nat)
    requires IsExecution(states, steps) && i < |states| && Unspoiled(states, steps, i) && h < |states[i].history|
    requires row < |states[i].history[0].inventory|
    requires states[i].history[0].inventory[row].qtyReserved <= states[i].history[0].inventory[row].qtyAvailable
    ensures row < |states[i].history[h].inventory|
    ensures
      var r := states[i].history[h].inventory[row];
      0 <= r.qtyReserved <= r.qtyAvailable
  {
    ExecutionKeepsInv(states, steps, i);
    CountersStaySound(states[i].history, states[i].log, h, row);
  }

  // ----- The unique key of orders, in any execution at all -----

  /** Every committed confirmation has its order, and a flushed order has a free key. */
  ghost predicate KeysHold(s: Sys) {
    && s.history != []
    && (forall a: nat | a < |s.log| && s.log[a].Confirm? ::
          s.log[a].rid >= 0 && HasOrder(Committed(s).orders, s.log[a].rid))
    && (forall a, b | 0 <= a < b < |s.log| && s.log[a].Confirm? && s.log[b].Confirm? :: s.log[a].rid != s.log[b].rid)
    && (forall t | 0 <= t < |s.txns| && s.txns[t].Inserted? :: !HasOrder(Committed(s).orders, s.txns[t].f.rid))
    && (forall t, u | 0 <= t < |s.txns| && 0 <= u < |s.txns| && t != u && s.txns[t].Inserted? && s.txns[u].Inserted? ::
          s.txns[t].f.rid != s.txns[u].f.rid)
  }

  lemma OrderKeys(orders: seq<Order>, order: Order, rid: nat)
    ensures HasOrder(orders + [order], rid) <==> HasOrder(orders, rid) || order.reservationId == rid
  {
    if HasOrder(orders, rid) {
      var o :| 0 <= o < |orders| && orders[o].reservationId == rid;
      assert (orders + [order])[o] == orders[o];
    }
    if order.reservationId == rid {
      assert (orders + [order])[|orders|] == order;
    }
  }

  lemma ConfirmKeepsKeys(s: Sys, t: nat)
    requires KeysHold(s) && t < |s.txns| && Enabled(s, t, CommitConfirm)
    ensures KeysHold(Next(s, t, CommitConfirm))
  {
    hide WriteRows, SettlingCalls;
    var f, next := s.txns[t].f, Next(s, t, CommitConfirm);
    assert Committed(next).orders == Committed(s).orders + [Order(f.rid, f.res.userId)];
    forall r: nat
      ensures HasOrder(Committed(next).orders, r) <==> HasOrder(Committed(s).orders, r) || f.rid == r
    {
      OrderKeys(Committed(s).orders, Order(f.rid, f.res.userId), r);
    }
  }

  lemma OtherStepsKeepKeys(s: Sys, t: nat, a: Action)
    requires KeysHold(s) && t < |s.txns| && Enabled(s, t, a) && !a.CommitConfirm?
    ensures KeysHold(Next(s, t, a))
  {
    var next := Next(s, t, a);
    assert Committed(next).orders == Committed(s).orders;
    assert forall b | |s.log| <= b < |next.log| :: !next.log[b].Confirm?;
    forall u | 0 <= u < |s.txns| && u != t && s.txns[u].Inserted? && next.txns[t].Inserted?
      ensures s.txns[u].f.rid != next.txns[t].f.rid
    {
      assert a.FlushOrder? ==> !HasReservation(s.txns[u], s.txns[t].f.rid);
    }
  }

  lemma {:induction false} ExecutionKeepsKeys(states: seq<Sys>, steps: seq<Step>, i: nat)
    requires IsExecution(states, steps) && i < |states|
    ensures KeysHold(states[i])
  {
    hide Enabled, Next;
    if i > 0 {
      ExecutionKeepsKeys(states, steps, i - 1);
      if steps[i - 1].action.CommitConfirm? {
        ConfirmKeepsKeys(states[i - 1], steps[i - 1].t);
      } else {
        OtherStepsKeepKeys(states[i - 1], steps[i - 1].t, steps[i - 1].action);
      }
    }
  }

  /** Confirms of one reservation that overlap: at most one commits, spoiled or not. */
  lemma ConfirmedAtMostOnce(states: seq<Sys>, steps: seq<Step>, i: nat, a: nat, b: nat)
    requires IsExecution(states, steps) && i < |states| && a < b < |states[i].log|
    requires states[i].log[a].Confirm? && states[i].log[b].Confirm?
    ensures states[i].log[a].rid != states[i].log[b].rid
  {
    ExecutionKeepsKeys(states, steps, i);
  }

  /** Each committed confirmation takes each item's quantity off its row once, from both counters,
      and adds the one order of its reservation. */
  lemma CommittedConfirmConsumesOnce(states: seq<Sys>, steps: seq<Step>, i: nat, a: nat, row: nat)
    requires IsExecution(states, steps) && i < |states| && Unspoiled(states, steps, i)
    requires a < |states[i].log| && a + 1 < |states[i].history|
    requires states[i].log[a].Confirm?
    requires row < |states[i].history[0].inventory|
    ensures
      var before, after, r := states[i].history[a], states[i].history[a + 1], states[i].log[a].rid;
      && 0 <= r < |before.reservations| && row < |before.inventory| == |after.inventory|
      && CountOrders(before.orders, r) == 0 && CountOrders(after.orders, r) == 1
      && after.inventory[row].qtyAvailable ==
         before.inventory[row].qtyAvailable - RowQty(before.reservations[r].items, row)
      && after.inventory[row].qtyReserved ==
         before.inventory[row].qtyReserved - RowQty(before.reservations[r].items, row)
  {
    ExecutionKeepsInv(states, steps, i);
    var history, log := states[i].history, states[i].log;
    RunKeepsInv(history, log, a);
    RunKeepsInv(history, log, a + 1);
    ConfirmEffect(history[0].inventory, history[a], log[a].rid, log[a].now, log[a].answers);
    CloserDelta(history[0].inventory, history[a], log[a], log[a].rid, row);
  }

  // ----- Sweeps that overlap -----

  /** The reservations of `m` sweeps in a row, from the `h`-th commit on. */
  ghost function SweptBy(log: seq<Op>, h: nat, m: nat): seq<nat>
    requires h + m <= |log| && forall j | h <= j < h + m :: log[j].Sweep?
  {
    if m == 0 then [] else SweptBy(log, h, m - 1) + log[h + m - 1].batch
  }

  /** After a sweep, another one finds a batch that was pending before, too, and is disjoint. */
  lemma NextBatchIsDisjoint(init: seq<Inventory>, db: Db, a: seq<nat>, now: int, b: seq<nat>)
    requires Inv(init, db) && PendingFrom(db, a, 0) && SweepTx(db, a).Ok? && SweepsExpired(SweepTx(db, a).value, now, b)
    ensures PendingFrom(db, b, 0) && Disjoint(a, b)
  {
    SweepEffect(init, db, a);
    var mid := SweepTx(db, a).value;
    forall j | 0 <= j < |b|
      ensures b[j] < |db.reservations| && db.reservations[b[j]].status == Pending && b[j] !in IdsFrom(a, 0)
    {
      assert IsExpiredPending(mid, now, b[j]);
    }
    forall i, j | 0 <= i < |a| && 0 <= j < |b| ensures a[i] != b[j] {
      assert a[i] in IdsFrom(a, 0);
    }
  }

  lemma {:induction false} SweepsAddUp(history: seq<Db>, log: seq<Op>, h: nat, m: nat)
    requires IsRun(history, log) && h + m <= |log| && forall j | h <= j < h + m :: log[j].Sweep?
    ensures PendingFrom(history[h], SweptBy(log, h, m), 0)
    ensures SweepTx(history[h], SweptBy(log, h, m)) == Ok(history[h + m])
  {
    hide Inv;
    if m > 0 {
      var init, db := history[0].inventory, history[h];
      var a, b, now := SweptBy(log, h, m - 1), log[h + m - 1].batch, log[h + m - 1].now;
      SweepsAddUp(history, log, h, m - 1);
      RunKeepsInv(history, log, h);
      NextBatchIsDisjoint(init, db, a, now, b);
      SweepsCommute(init, db, a, b);
      BothPending(db, a, b);
    }
  }

  /** Sweeps that overlap, item by item, in any way: when nothing else commits from the `h`-th commit to the
      `m`-th after it, the database is what one sweep of all their reservations leaves, in whatever order. */
  lemma OverlappingSweeps(states: seq<Sys>, steps: seq<Step>, i: nat, h: nat, m: nat, all: seq<nat>)
    requires IsExecution(states, steps) && i < |states| && Unspoiled(states, steps, i)
    requires h + m <= |states[i].log|
    requires forall j | h <= j < h + m :: states[i].log[j].Sweep?
    requires forall b, c | 0 <= b < c < |all| :: all[b] != all[c]
    requires IdsFrom(all, 0) == IdsFrom(SweptBy(states[i].log, h, m), 0)
    ensures h + m < |states[i].history| && PendingFrom(states[i].history[h], all, 0)
    ensures SweepTx(states[i].history[h], all) == Ok(states[i].history[h + m])
  {
    InterleavingIsSerial(states, steps, i);
    var history, swept := states[i].history, SweptBy(states[i].log, h, m);
    RunKeepsInv(history, states[i].log, h);
    SweepsAddUp(history, states[i].log, h, m);
    forall b | 0 <= b < |all|
      ensures all[b] < |history[h].reservations| && history[h].reservations[all[b]].status == Pending
    {
      assert all[b] in IdsFrom(all, 0);
    }
    BatchOrderIsIrrelevant(history[0].inventory, history[h], all, swept);
  }
}
