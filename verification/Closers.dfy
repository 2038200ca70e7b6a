/** A `confirm` or `cancel` in flight: it read its reservation without a lock, and settles the items one at a time on
    private copies of the rows it has locked. Its commit is what it would do alone, unless it has been overtaken.
  */
module Closers {
  import opened Tables
  import opened Transactions
  import opened Operations
  import opened Ledger
  import opened Settlement
  import opened Booking
  import opened Steps
  import opened Runs

  /** What the transaction is for, with the answers of the world: those to a `confirm` come item by item. */
  datatype Purpose =
    | ToConfirm(now: int, answers: seq<ConfirmOutcome>)
    | ToCancel(unsent: set<Call>)
  {
    function Kind(): CallKind { if ToConfirm? then ConfirmHold else ReleaseHold }

    function Status(): Status { if ToConfirm? then Confirmed else Cancelled }
  }

  /** The reservation as the unlocked read returned it, and private copies of its items' rows, settled so far. */
  datatype Closing = Closing(rid: nat, purpose: Purpose, res: Reservation, rows: seq<Inventory>)

  /** The request of a committing transaction. */
  function CloseOp(f: Closing): Op {
    match f.purpose
    case ToConfirm(now, answers) => Confirm(f.rid, now, answers)
    case ToCancel(unsent) => Cancel(f.rid, unsent)
  }

  function RowsOf(items: seq<Item>): (ids: seq<nat>)
    ensures |ids| == |items| && forall j | 0 <= j < |items| :: ids[j] == items[j].inventoryId
  {
    seq(|items|, j requires 0 <= j < |items| => items[j].inventoryId)
  }

  /** What settling an item does to its row. */
  function SettleRow(kind: CallKind, row: Inventory, qty: int): Inventory {
    if kind == ConfirmHold then row.Consume(qty) else row.Release(qty)
  }

  /** Publishing private rows. */
  function WriteRows(inventory: seq<Inventory>, ids: seq<nat>, rows: seq<Inventory>, k: nat): (r: seq<Inventory>)
    requires |ids| == |rows| && k <= |ids|
    ensures |r| == |inventory|
    decreases |ids| - k
  {
    if k == |ids| then inventory
    else WriteRows(if ids[k] < |inventory| then inventory[ids[k] := rows[k]] else inventory, ids, rows, k + 1)
  }

  /** The settling call for item `k`, if it has a remote hold. */
  function OneCall(kind: CallKind, r: nat, items: seq<Item>, k: nat): multiset<Call>
    requires k < |items|
  {
    if items[k].RemotelyHeld() then multiset{Call(kind, r, k, items[k].holdRef.value)} else multiset{}
  }

  /** Those for these items, from the `k`-th on. */
  function SettlingCalls(kind: CallKind, r: nat, items: seq<Item>, k: nat): multiset<Call>
    requires k <= |items|
    decreases |items| - k
  {
    if k == |items| then multiset{} else OneCall(kind, r, items, k) + SettlingCalls(kind, r, items, k + 1)
  }

  /** The database the transaction commits: its updates write status columns of the committed records. */
  function ClosedDb(db: Db, f: Closing): Db
    requires |f.rows| == |f.res.items| && f.rid < |db.reservations|
  {
    db.(inventory := WriteRows(db.inventory, RowsOf(f.res.items), f.rows, 0),
        reservations := db.reservations[f.rid := Closed(db.reservations[f.rid], f.purpose.Status())],
        orders := db.orders + if f.purpose.ToConfirm? then [Order(f.rid, f.res.userId)] else [],
        calls := db.calls + SettlingCalls(f.purpose.Kind(), f.rid, f.res.items, 0))
  }

  // ----- Steps -----

  /** The tests made on the unlocked read. */
  predicate MayClose(db: Db, rid: int, purpose: Purpose) {
    match purpose
    case ToConfirm(now, answers) => ConfirmGuard(db, rid, now).None? && answers == []
    case ToCancel(_) => 0 <= rid < |db.reservations| && db.reservations[rid].status == Pending
  }

  predicate HasNext(db: Db, f: Closing) {
    && |f.rows| < |f.res.items|
    && var item := f.res.items[|f.rows|];
       item.inventoryId < |db.inventory| && (item.RemotelyHeld() ==> Resolve(db.ProviderOf(item.providerId), None).Ok?)
  }

  /** The next item is settled; `answer` is that of its remote confirmation. */
  predicate CanSettle(db: Db, f: Closing, answer: ConfirmOutcome) {
    HasNext(db, f) && (f.purpose.ToConfirm? && f.res.items[|f.rows|].RemotelyHeld() ==> !answer.ConfirmRaised?)
  }

  /** Its remote confirmation raises, which will roll the transaction back. */
  predicate CanRaise(db: Db, f: Closing, answer: ConfirmOutcome) {
    HasNext(db, f) && f.purpose.ToConfirm? && f.res.items[|f.rows|].RemotelyHeld() && answer.ConfirmRaised?
  }

  function SettledNext(db: Db, f: Closing, answer: ConfirmOutcome): Closing
    requires CanSettle(db, f, answer)
  {
    var item := f.res.items[|f.rows|];
    f.(rows := f.rows + [SettleRow(f.purpose.Kind(), db.inventory[item.inventoryId], item.qty)],
       purpose := if f.purpose.ToConfirm? then f.purpose.(answers := f.purpose.answers + [answer]) else f.purpose)
  }

  // ----- The invariant of a closing transaction -----

  ghost predicate SettlesCurrent(db: Db, f: Closing) {
    && f.rid < |db.reservations| && f.res.status == Pending && Evolves(f.res, db.reservations[f.rid])
    && AllLive(f.res.items) && DistinctRows(f.res.items) && Positive(f.res.items)
    && (forall k | 0 <= k < |f.res.items| :: f.res.items[k].inventoryId < |db.inventory|)
    && |f.rows| <= |f.res.items| && RowsCurrent(db, f) && AnswersCurrent(f)
  }

  ghost predicate RowsCurrent(db: Db, f: Closing)
    requires |f.rows| <= |f.res.items|
    requires forall k | 0 <= k < |f.res.items| :: f.res.items[k].inventoryId < |db.inventory|
  {
    forall k | 0 <= k < |f.rows| ::
      f.rows[k] == SettleRow(f.purpose.Kind(), db.inventory[f.res.items[k].inventoryId], f.res.items[k].qty)
  }

  ghost predicate AnswersCurrent(f: Closing)
    requires |f.rows| <= |f.res.items|
  {
    f.purpose.ToConfirm? ==>
      && f.purpose.now <= f.res.expiresAt && |f.purpose.answers| == |f.rows|
      && forall k | 0 <= k < |f.rows| && f.res.items[k].RemotelyHeld() :: !f.purpose.answers[k].ConfirmRaised?
  }

  /** Somebody else has closed the reservation since it was read. */
  predicate Overtaken(db: Db, f: Closing)
    requires f.rid < |db.reservations|
  {
    db.reservations[f.rid] != f.res
  }

  lemma ReadIsCurrent(init: seq<Inventory>, db: Db, rid: int, purpose: Purpose)
    requires Inv(init, db) && MayClose(db, rid, purpose)
    ensures SettlesCurrent(db, Closing(rid, purpose, db.reservations[rid], []))
  {
    ItemsArePositive(init, db);
    assert DistinctRows(db.reservations[rid].items) && StatusesAgree(db.reservations[rid]);
    forall k | 0 <= k < |db.reservations[rid].items|
      ensures db.reservations[rid].items[k].inventoryId < |db.inventory|
    {
      assert ItemOk(db, db.reservations[rid].items[k]);
    }
  }

  lemma SettleKeepsCurrent(db: Db, f: Closing, answer: ConfirmOutcome)
    requires SettlesCurrent(db, f) && CanSettle(db, f, answer)
    ensures SettlesCurrent(db, SettledNext(db, f, answer))
  {}

  // ----- Whole loops, in closed form -----

  lemma {:induction false} WriteRowsRewrites(inventory: seq<Inventory>, ids: seq<nat>, rows: seq<Inventory>, k: nat)
    requires |ids| == |rows| && k <= |ids| && Distinct(ids) && InRange(ids, |inventory|)
    ensures Rewritten(inventory, WriteRows(inventory, ids, rows, k), ids, rows, k)
    decreases |ids| - k
  {
    if k < |ids| {
      var next := inventory[ids[k] := rows[k]];
      WriteRowsRewrites(next, ids, rows, k + 1);
      assert WriteRows(next, ids, rows, k + 1)[ids[k]] == next[ids[k]];
    }
  }

  function SettledRows(kind: CallKind, inventory: seq<Inventory>, items: seq<Item>): (rows: seq<Inventory>)
    requires forall k | 0 <= k < |items| :: items[k].inventoryId < |inventory|
    ensures |rows| == |items|
  {
    seq(|items|, k requires 0 <= k < |items| => SettleRow(kind, inventory[items[k].inventoryId], items[k].qty))
  }

  lemma {:induction false} LaterCallsSame(kind: CallKind, r: nat, a: seq<Item>, b: seq<Item>, k: nat)
    requires |a| == |b| && k <= |a| && forall j | k <= j < |a| :: a[j] == b[j]
    ensures SettlingCalls(kind, r, a, k) == SettlingCalls(kind, r, b, k)
    decreases |a| - k
  {
    if k < |a| {
      LaterCallsSame(kind, r, a, b, k + 1);
    }
  }

  lemma SettledStep(
    kind: CallKind, before: seq<Inventory>, next: seq<Inventory>, done: seq<Inventory>,
    items: seq<Item>, rest: seq<Item>, k: nat, status: ItemStatus)
    requires k < |items| && DistinctRows(items) && forall j | 0 <= j < |items| :: items[j].inventoryId < |before|
    requires rest == items[k := items[k].(status := status)]
    requires next == before[items[k].inventoryId := SettleRow(kind, before[items[k].inventoryId], items[k].qty)]
    requires Rewritten(next, done, RowsOf(rest), SettledRows(kind, next, rest), k + 1)
    ensures Rewritten(before, done, RowsOf(items), SettledRows(kind, before, items), k)
  {
    assert RowsOf(rest) == RowsOf(items);
    var ids := RowsOf(items);
    forall j | k < j < |items| ensures done[ids[j]] == SettledRows(kind, before, items)[j] {
      assert ids[j] != ids[k];
      assert done[ids[j]] == SettledRows(kind, next, rest)[j];
    }
    assert done[ids[k]] == next[ids[k]];
  }

  /** `next` is `db` with item `k` settled, as the loop body does it. */
  ghost predicate SettlesOne(db: Db, next: Db, r: nat, k: nat, kind: CallKind, status: ItemStatus)
    requires db.HasItem(r, k) && db.ItemAt(r, k).inventoryId < |db.inventory|
  {
    var item := db.ItemAt(r, k);
    && next.reservations == db.SetItemStatus(r, k, status).reservations
    && next.inventory ==
       db.inventory[item.inventoryId := SettleRow(kind, db.inventory[item.inventoryId], item.qty)]
    && next.calls == db.calls + OneCall(kind, r, db.reservations[r].items, k)
    && next.skus == db.skus && next.providers == db.providers && next.orders == db.orders
  }

  /** `after` is `db` with all items from `k` on settled. */
  ghost predicate SettlesRest(db: Db, after: Db, r: nat, k: nat, kind: CallKind)
    requires r < |db.reservations| && k <= |db.reservations[r].items|
    requires forall j | 0 <= j < |db.reservations[r].items| ::
               db.reservations[r].items[j].inventoryId < |db.inventory|
  {
    var items := db.reservations[r].items;
    && Rewritten(db.inventory, after.inventory, RowsOf(items), SettledRows(kind, db.inventory, items), k)
    && after.calls == db.calls + SettlingCalls(kind, r, items, k)
    && after.skus == db.skus && after.providers == db.providers && after.orders == db.orders
  }

  lemma SettlesOneMore(db: Db, next: Db, after: Db, r: nat, k: nat, kind: CallKind, status: ItemStatus)
    requires db.HasItem(r, k) && DistinctRows(db.reservations[r].items)
    requires forall j | 0 <= j < |db.reservations[r].items| ::
               db.reservations[r].items[j].inventoryId < |db.inventory|
    requires SettlesOne(db, next, r, k, kind, status)
    ensures |next.reservations| == |db.reservations| && |next.inventory| == |db.inventory|
    ensures next.reservations[r].items == db.reservations[r].items[k := db.ItemAt(r, k).(status := status)]
    ensures DistinctRows(next.reservations[r].items)
    ensures SettlesRest(next, after, r, k + 1, kind) ==> SettlesRest(db, after, r, k, kind)
  {
    hide OneCall;
    var items, rest := db.reservations[r].items, next.reservations[r].items;
    assert rest == items[k := items[k].(status := status)];
    if SettlesRest(next, after, r, k + 1, kind) {
      SettledStep(kind, db.inventory, next.inventory, after.inventory, items, rest, k, status);
      LaterCallsSame(kind, r, items, rest, k + 1);
    }
  }

  lemma SettlesNone(db: Db, r: nat, kind: CallKind)
    requires r < |db.reservations|
    requires forall j | 0 <= j < |db.reservations[r].items| ::
               db.reservations[r].items[j].inventoryId < |db.inventory|
    ensures SettlesRest(db, db, r, |db.reservations[r].items|, kind)
  {}

  lemma ConfirmOneWrites(db: Db, r: nat, k: nat, out: ConfirmOutcome)
    requires db.HasItem(r, k) && db.ItemAt(r, k).inventoryId < |db.inventory| && ConfirmItem(db, r, k, out).Ok?
    ensures SettlesOne(db, ConfirmItem(db, r, k, out).value, r, k, ConfirmHold, ItemConfirmed)
  {}

  /** The rows and the calls of a confirmation. */
  lemma {:induction false} ConfirmFromWrites(db: Db, r: nat, outs: seq<ConfirmOutcome>, k: nat)
    requires r < |db.reservations| && |outs| == |db.reservations[r].items| && k <= |outs|
    requires DistinctRows(db.reservations[r].items)
    requires forall j | 0 <= j < |outs| :: db.reservations[r].items[j].inventoryId < |db.inventory|
    requires ConfirmFrom(db, r, outs, k).Ok?
    ensures SettlesRest(db, ConfirmFrom(db, r, outs, k).value, r, k, ConfirmHold)
    decreases |outs| - k
  {
    hide ConfirmItem, SettlesOne, SettlesRest;
    if k == |outs| {
      SettlesNone(db, r, ConfirmHold);
    } else {
      ConfirmOneWrites(db, r, k, outs[k]);
      var next, after := ConfirmItem(db, r, k, outs[k]).value, ConfirmFrom(db, r, outs, k).value;
      SettlesOneMore(db, next, after, r, k, ConfirmHold, ItemConfirmed);
      ConfirmFromWrites(next, r, outs, k + 1);
    }
  }

  predicate IsSettled(item: Item) { item.status == Released || item.status == ItemConfirmed }

  lemma ReleaseOneWrites(db: Db, r: nat, k: nat)
    requires db.HasItem(r, k) && db.ItemAt(r, k).inventoryId < |db.inventory| && ReleaseItem(db, r, k).Ok?
    requires !IsSettled(db.ItemAt(r, k))
    ensures SettlesOne(db, ReleaseItem(db, r, k).value, r, k, ReleaseHold, Released)
  {}

  /** Those of a cancellation, and of one reservation in a sweep. */
  lemma {:induction false} ReleaseFromWrites(db: Db, r: nat, n: nat, k: nat)
    requires r < |db.reservations| && n == |db.reservations[r].items| && k <= n
    requires DistinctRows(db.reservations[r].items) && LiveFrom(db, r, k)
    requires forall j | 0 <= j < n :: db.reservations[r].items[j].inventoryId < |db.inventory|
    requires ReleaseFrom(db, r, n, k).Ok?
    ensures SettlesRest(db, ReleaseFrom(db, r, n, k).value, r, k, ReleaseHold)
    decreases n - k
  {
    hide ReleaseItem, SettlesOne, SettlesRest;
    if k == n {
      SettlesNone(db, r, ReleaseHold);
    } else {
      ReleaseOneWrites(db, r, k);
      var next, after := ReleaseItem(db, r, k).value, ReleaseFrom(db, r, n, k).value;
      SettlesOneMore(db, next, after, r, k, ReleaseHold, Released);
      ReleaseFromWrites(next, r, n, k + 1);
    }
  }

  // ----- Commits -----

  /** What the loop leaves is what the transaction's private copies say. */
  lemma WrittenAsSettled(db: Db, f: Closing, done: Db)
    requires SettlesCurrent(db, f) && !Overtaken(db, f) && |f.rows| == |f.res.items|
    requires SettlesRest(db, done, f.rid, 0, f.purpose.Kind())
    ensures done.inventory == ClosedDb(db, f).inventory && done.calls == ClosedDb(db, f).calls
    ensures done.skus == db.skus && done.providers == db.providers && done.orders == db.orders
  {
    var kind := f.purpose.Kind();
    assert f.rows == SettledRows(kind, db.inventory, f.res.items);
    WriteRowsRewrites(db.inventory, RowsOf(f.res.items), f.rows, 0);
    RewrittenUnique(db.inventory, done.inventory, ClosedDb(db, f).inventory, RowsOf(f.res.items), f.rows);
  }

  lemma AnswersDoNotRaise(init: seq<Inventory>, db: Db, f: Closing)
    requires Inv(init, db) && SettlesCurrent(db, f) && !Overtaken(db, f) && |f.rows| == |f.res.items|
    requires f.purpose.ToConfirm?
    ensures !AnswerRaises(f.res.items, f.purpose.answers, 0)
  {
    forall k | 0 <= k < |f.res.items| && f.res.items[k].holdRef.Some? ensures !f.purpose.answers[k].ConfirmRaised? {
      assert ItemOk(db, db.reservations[f.rid].items[k]);
      assert f.res.items[k].RemotelyHeld();
    }
  }

  lemma ConfirmIsAtomic(init: seq<Inventory>, db: Db, f: Closing)
    requires Inv(init, db) && SettlesCurrent(db, f) && !Overtaken(db, f) && |f.rows| == |f.res.items|
    requires f.purpose.ToConfirm?
    ensures ValidOp(db, CloseOp(f)) && Attempt(db, CloseOp(f)) == Ok(ClosedDb(db, f))
  {
    AnswersDoNotRaise(init, db, f);
    ConfirmEffect(init, db, f.rid, f.purpose.now, f.purpose.answers);
    var after := ConfirmTx(db, f.rid, f.purpose.now, f.purpose.answers).value;
    var done := ConfirmFrom(db, f.rid, f.purpose.answers, 0).value;
    ConfirmFromWrites(db, f.rid, f.purpose.answers, 0);
    WrittenAsSettled(db, f, done);
    assert after == done.(reservations := after.reservations, orders := after.orders);
  }

  lemma CancelIsAtomic(init: seq<Inventory>, db: Db, f: Closing)
    requires Inv(init, db) && SettlesCurrent(db, f) && !Overtaken(db, f) && |f.rows| == |f.res.items|
    requires f.purpose.ToCancel?
    ensures ValidOp(db, CloseOp(f)) && Attempt(db, CloseOp(f)) == Ok(ClosedDb(db, f))
  {
    CloseEffect(init, db, f.rid, Cancelled);
    var n := |f.res.items|;
    var after, done := CloseTx(db, f.rid, Cancelled).value, ReleaseFrom(db, f.rid, n, 0).value;
    ReleaseFromWrites(db, f.rid, n, 0);
    WrittenAsSettled(db, f, done);
    assert db.orders + [] == db.orders;
    assert after == done.(reservations := after.reservations);
  }

  /** What a closing transaction commits to the rows of its items, overtaken or not: a confirmation takes each item's
      quantity off both counters, a cancellation off the reserved units, but not below zero. */
  lemma CommitWrites(db: Db, f: Closing)
    requires SettlesCurrent(db, f) && |f.rows| == |f.res.items|
    ensures forall k | 0 <= k < |f.res.items| ::
              var item := f.res.items[k];
              var before, after := db.inventory[item.inventoryId], ClosedDb(db, f).inventory[item.inventoryId];
              if f.purpose.ToConfirm? then
                && after.qtyAvailable == before.qtyAvailable - item.qty
                && after.qtyReserved == before.qtyReserved - item.qty
              else
                && after.qtyAvailable == before.qtyAvailable
                && after.qtyReserved == if item.qty < before.qtyReserved then before.qtyReserved - item.qty else 0
    ensures forall i | 0 <= i < |db.inventory|
              && (forall k | 0 <= k < |f.res.items| :: f.res.items[k].inventoryId != i) ::
              ClosedDb(db, f).inventory[i] == db.inventory[i]
  {
    var ids, after := RowsOf(f.res.items), ClosedDb(db, f);
    WriteRowsRewrites(db.inventory, ids, f.rows, 0);
    forall k | 0 <= k < |ids| ensures after.inventory[ids[k]] == f.rows[k] {}
    forall i | 0 <= i < |db.inventory| && (forall k | 0 <= k < |f.res.items| :: f.res.items[k].inventoryId != i)
      ensures after.inventory[i] == db.inventory[i]
    {
      assert forall k | 0 <= k < |ids| :: ids[k] == f.res.items[k].inventoryId != i;
    }
  }

  /** A second cancellation that finds nothing left to take: no reserved units on its rows, no remote holds. */
  predicate Repeats(db: Db, f: Closing)
    requires f.rid < |db.reservations|
  {
    && f.purpose.ToCancel? && db.reservations[f.rid].status == Cancelled
    && forall k | 0 <= k < |f.res.items| ::
         && !f.res.items[k].RemotelyHeld()
         && (f.res.items[k].inventoryId < |db.inventory| ==> db.inventory[f.res.items[k].inventoryId].qtyReserved == 0)
  }

  lemma {:induction false} NoCallsWithoutHolds(kind: CallKind, r: nat, items: seq<Item>, k: nat)
    requires k <= |items|
    ensures SettlingCalls(kind, r, items, k) == multiset{} <==> forall j | k <= j < |items| :: !items[j].RemotelyHeld()
    decreases |items| - k
  {
    if k < |items| {
      NoCallsWithoutHolds(kind, r, items, k + 1);
    }
  }

  lemma MarkedTwice(res: Reservation, status: Status)
    requires status != Pending
    ensures Closed(Closed(res, status), status) == Closed(res, status)
  {}

  /** A cancellation writes no row exactly when they have nothing reserved. */
  lemma RowsUnchanged(db: Db, f: Closing)
    requires SettlesCurrent(db, f) && |f.rows| == |f.res.items| && f.purpose.ToCancel?
    ensures ClosedDb(db, f).inventory == db.inventory <==>
            forall k | 0 <= k < |f.res.items| :: db.inventory[f.res.items[k].inventoryId].qtyReserved == 0
  {
    hide Evolves, AnswersCurrent;
    var after, ids := ClosedDb(db, f), RowsOf(f.res.items);
    WriteRowsRewrites(db.inventory, ids, f.rows, 0);
    forall k | 0 <= k < |ids| ensures after.inventory[ids[k]] == db.inventory[ids[k]].Release(f.res.items[k].qty) {}
    if forall k | 0 <= k < |ids| :: db.inventory[ids[k]].qtyReserved == 0 {
      RewrittenUnique(db.inventory, after.inventory, db.inventory, ids, f.rows);
    } else {
      var k :| 0 <= k < |ids| && db.inventory[ids[k]].qtyReserved != 0;
      assert after.inventory[ids[k]] != db.inventory[ids[k]];
    }
  }

  lemma RecordUnchanged(db: Db, f: Closing)
    requires f.rid < |db.reservations| && f.res.status == Pending && Evolves(f.res, db.reservations[f.rid])
    ensures db.reservations[f.rid := Closed(db.reservations[f.rid], Cancelled)] == db.reservations <==>
            db.reservations[f.rid].status == Cancelled
  {
    var rec := db.reservations[f.rid];
    MarkedTwice(f.res, Cancelled);
    if rec.status == Cancelled {
      assert db.reservations[f.rid := rec] == db.reservations;
    } else {
      assert db.reservations[f.rid := Closed(rec, Cancelled)][f.rid] != rec;
    }
  }

  /** A cancellation that was overtaken writes nothing exactly when it repeats one. */
  lemma RepeatsWriteNothing(db: Db, f: Closing)
    requires SettlesCurrent(db, f) && Overtaken(db, f) && |f.rows| == |f.res.items| && f.purpose.ToCancel?
    ensures ClosedDb(db, f) == db <==> Repeats(db, f)
  {
    var after := ClosedDb(db, f);
    RowsUnchanged(db, f);
    RecordUnchanged(db, f);
    NoCallsWithoutHolds(ReleaseHold, f.rid, f.res.items, 0);
    SameSum(db.calls, SettlingCalls(ReleaseHold, f.rid, f.res.items, 0));
    hide WriteRows, SettlingCalls, Closed, Evolves, RowsCurrent;
    assert after.orders == db.orders;
  }

  lemma SameSum(a: multiset<Call>, b: multiset<Call>)
    ensures a + b == a <==> b == multiset{}
  {
    if b != multiset{} {
      var c :| c in b;
      assert (a + b)[c] == a[c] + b[c];
    }
  }

  /** A `confirm` or `cancel` that has settled all its items commits what it would do alone, now, exactly when nobody
      else has closed the reservation since it was read; but for a second cancellation that writes nothing. */
  lemma CommitIsAtomic(init: seq<Inventory>, db: Db, f: Closing)
    requires Inv(init, db) && SettlesCurrent(db, f) && |f.rows| == |f.res.items|
    ensures ValidOp(db, CloseOp(f))
    ensures Attempt(db, CloseOp(f)) == Ok(ClosedDb(db, f)) <==> !Overtaken(db, f) || Repeats(db, f)
  {
    if !Overtaken(db, f) {
      if f.purpose.ToConfirm? {
        ConfirmIsAtomic(init, db, f);
      } else {
        CancelIsAtomic(init, db, f);
      }
    } else if f.purpose.ToCancel? {
      RepeatsWriteNothing(db, f);
    }
  }
}
