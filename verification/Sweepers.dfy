/** A sweep in flight: its items one at a time, on private copies of the rows it has locked, and its commit. */
module Sweepers {
  import opened Tables
  import opened Queries
  import opened Transactions
  import opened Operations
  import opened Ledger
  import opened Settlement
  import opened Steps
  import opened Runs
  import opened Closers

  /** The sweep has locked the reservations of `batch`, as `res`, and released the first `done` of their items;
      `rows` are its copies of the inventory rows it has locked on the way. `unsent` are the calls of the sweep whose
      requests do not go out. */
  datatype Sweeper = Sweeper(
    now: int, batch: seq<nat>, unsent: set<Call>, res: seq<Reservation>, done: nat, rows: map<nat, Inventory>)

  /** All the items of these reservations, from the `k`-th on, in the order of the loop. */
  function ItemsFrom(res: seq<Reservation>, k: nat): seq<Item>
    requires k <= |res|
    decreases |res| - k
  {
    if k == |res| then [] else res[k].items + ItemsFrom(res, k + 1)
  }

  function ItemsOf(w: Sweeper): seq<Item> { ItemsFrom(w.res, 0) }

  /** The row as the sweep sees it: its own copy, or the committed row. */
  function RowNow(db: Db, w: Sweeper, i: nat): Inventory
    requires i < |db.inventory|
  {
    if i in w.rows then w.rows[i] else db.inventory[i]
  }

  /** A sweep that has just picked its batch. */
  function Picked(db: Db, now: int, batch: seq<nat>, unsent: set<Call>): Sweeper
    requires forall b | 0 <= b < |batch| :: batch[b] < |db.reservations|
  {
    Sweeper(now, batch, unsent, seq(|batch|, b requires 0 <= b < |batch| => db.reservations[batch[b]]), 0, map[])
  }

  predicate CanRelease(db: Db, w: Sweeper) {
    && w.done < |ItemsOf(w)|
    && var item := ItemsOf(w)[w.done];
       && item.inventoryId < |db.inventory|
       && (item.RemotelyHeld() ==> Resolve(db.ProviderOf(item.providerId), None).Ok?)
  }

  /** The next item: skipped, or released on the row's private copy. */
  function ReleasedOne(db: Db, w: Sweeper): Sweeper
    requires CanRelease(db, w)
  {
    var item := ItemsOf(w)[w.done];
    if IsSettled(item) then w.(done := w.done + 1)
    else
      w.(done := w.done + 1, rows := w.rows[item.inventoryId := RowNow(db, w, item.inventoryId).Release(item.qty)])
  }

  /** The calls of a whole sweep. */
  function BatchCalls(batch: seq<nat>, res: seq<Reservation>, k: nat): multiset<Call>
    requires |res| == |batch| && k <= |batch|
    decreases |batch| - k
  {
    if k == |batch| then multiset{}
    else SettlingCalls(ReleaseHold, batch[k], res[k].items, 0) + BatchCalls(batch, res, k + 1)
  }

  /** The database a sweep commits. */
  function SweptDb(db: Db, w: Sweeper): Db
    requires |w.res| == |w.batch|
  {
    db.(inventory := seq(|db.inventory|, i requires 0 <= i < |db.inventory| => RowNow(db, w, i)),
        reservations := Swept(db.reservations, IdsFrom(w.batch, 0)),
        calls := db.calls + BatchCalls(w.batch, w.res, 0))
  }

  function SweepOp(w: Sweeper): Op { Sweep(w.now, w.batch, w.unsent) }

  // ----- The invariant of a sweep in flight -----

  ghost predicate ReadsCurrent(db: Db, w: Sweeper) {
    && SweepsExpired(db, w.now, w.batch) && |w.res| == |w.batch|
    && forall b | 0 <= b < |w.batch| :: w.batch[b] < |db.reservations| && w.res[b] == db.reservations[w.batch[b]]
  }

  /** Each row is seen with what the items so far held on it taken off. */
  ghost predicate SweepsCurrent(db: Db, w: Sweeper) {
    && ReadsCurrent(db, w) && w.done <= |ItemsOf(w)|
    && (forall i | i in w.rows :: i < |db.inventory|)
    && forall i: nat | i < |db.inventory| :: FreedSoFar(db, w, i)
  }

  ghost predicate FreedSoFar(db: Db, w: Sweeper, i: nat)
    requires i < |db.inventory| && w.done <= |ItemsOf(w)|
  {
    var was := db.inventory[i];
    RowNow(db, w, i) == was.(qtyReserved := was.qtyReserved - RowQty(ItemsOf(w)[..w.done], i))
  }

  lemma PickedIsCurrent(db: Db, now: int, batch: seq<nat>, unsent: set<Call>)
    requires SweepsExpired(db, now, batch)
    ensures forall b | 0 <= b < |batch| :: batch[b] < |db.reservations|
    ensures SweepsCurrent(db, Picked(db, now, batch, unsent))
  {
    assert forall b | 0 <= b < |batch| :: IsExpiredPending(db, now, batch[b]);
  }

  // ----- Quantities of the flattened batch -----

  lemma {:induction false} RowQtyConcat(a: seq<Item>, b: seq<Item>, row: nat)
    ensures RowQty(a + b, row) == RowQty(a, row) + RowQty(b, row)
  {
    if b == [] {
      assert a + b == a;
    } else {
      var last := |b| - 1;
      RowQtyConcat(a, b[..last], row);
      assert (a + b)[..|a| + last] == a + b[..last];
    }
  }

  lemma {:induction false} ItemsHaveBatchQty(
    rs: seq<Reservation>, batch: seq<nat>, res: seq<Reservation>, k: nat, row: nat)
    requires |res| == |batch| && k <= |batch|
    requires forall b | 0 <= b < |batch| :: batch[b] < |rs| && res[b] == rs[batch[b]]
    ensures RowQty(ItemsFrom(res, k), row) == BatchQty(rs, batch, k, row)
    decreases |batch| - k
  {
    if k < |batch| {
      ItemsHaveBatchQty(rs, batch, res, k + 1, row);
      RowQtyConcat(res[k].items, ItemsFrom(res, k + 1), row);
    }
  }

  lemma {:induction false} ItemsAreLive(res: seq<Reservation>, k: nat)
    requires k <= |res| && forall b | 0 <= b < |res| :: Positive(res[b].items) && AllLive(res[b].items)
    ensures Positive(ItemsFrom(res, k)) && AllLive(ItemsFrom(res, k))
    decreases |res| - k
  {
    if k < |res| {
      var rest := ItemsFrom(res, k + 1);
      ItemsAreLive(res, k + 1);
      forall j | 0 <= j < |res[k].items| + |rest|
        ensures (res[k].items + rest)[j] in res[k].items || (res[k].items + rest)[j] in rest
      {}
    }
  }

  lemma LiveItems(init: seq<Inventory>, db: Db, w: Sweeper)
    requires Inv(init, db) && ReadsCurrent(db, w)
    ensures Positive(ItemsOf(w)) && AllLive(ItemsOf(w))
  {
    ItemsArePositive(init, db);
    forall b | 0 <= b < |w.res| ensures Positive(w.res[b].items) && AllLive(w.res[b].items) {
      assert IsExpiredPending(db, w.now, w.batch[b]);
      assert StatusesAgree(db.reservations[w.batch[b]]);
    }
    ItemsAreLive(w.res, 0);
  }

  /** A row has at least what a batch holds on it, and sweeping the batch alone takes exactly that off. */
  lemma BatchFits(init: seq<Inventory>, db: Db, w: Sweeper, row: nat)
    requires Inv(init, db) && ReadsCurrent(db, w) && row < |init|
    ensures PendingFrom(db, w.batch, 0) && SweepTx(db, w.batch).Ok? && Inv(init, SweepTx(db, w.batch).value)
    ensures row < |db.inventory| == |SweepTx(db, w.batch).value.inventory|
    ensures RowQty(ItemsOf(w), row) <= db.inventory[row].qtyReserved
    ensures SweepTx(db, w.batch).value.inventory[row] ==
            db.inventory[row].(qtyReserved := db.inventory[row].qtyReserved - RowQty(ItemsOf(w), row))
  {
    assert forall b | 0 <= b < |w.batch| :: IsExpiredPending(db, w.now, w.batch[b]);
    SweepDelta(init, db, w.batch, 0, row);
    ItemsHaveBatchQty(db.reservations, w.batch, w.res, 0, row);
    SweepEffect(init, db, w.batch);
    NothingNegative(init, SweepTx(db, w.batch).value, row);
  }

  // ----- One item -----

  lemma RowQtyNext(items: seq<Item>, n: nat, row: nat)
    requires n < |items| && Positive(items)
    ensures RowQty(items[..n + 1], row) ==
            RowQty(items[..n], row) + if items[n].inventoryId == row then items[n].qty else 0
    ensures RowQty(items[..n + 1], row) <= RowQty(items, row)
  {
    assert items[..n + 1][..n] == items[..n];
    assert items == items[..n + 1] + items[n + 1..];
    RowQtyConcat(items[..n + 1], items[n + 1..], row);
    RowQtyBounds(items[n + 1..], row);
  }

  lemma NextFits(init: seq<Inventory>, db: Db, w: Sweeper)
    requires Inv(init, db) && SweepsCurrent(db, w) && w.done < |ItemsOf(w)|
    requires ItemsOf(w)[w.done].inventoryId < |db.inventory|
    ensures
      var item := ItemsOf(w)[w.done];
      !IsSettled(item) && item.qty <= RowNow(db, w, item.inventoryId).qtyReserved
  {
    var items, row := ItemsOf(w), ItemsOf(w)[w.done].inventoryId;
    LiveItems(init, db, w);
    BatchFits(init, db, w, row);
    assert FreedSoFar(db, w, row);
    RowQtyNext(items, w.done, row);
  }

  /** Releasing the next item keeps the sweep sound: it is never skipped, and the clamp clamps nothing. */
  lemma ReleaseKeepsCurrent(init: seq<Inventory>, db: Db, w: Sweeper)
    requires Inv(init, db) && SweepsCurrent(db, w) && CanRelease(db, w)
    ensures SweepsCurrent(db, ReleasedOne(db, w))
  {
    var items, next := ItemsOf(w), ReleasedOne(db, w);
    NextFits(init, db, w);
    forall i: nat | i < |db.inventory| ensures FreedSoFar(db, next, i) {
      assert FreedSoFar(db, w, i);
      assert items[..w.done + 1][..w.done] == items[..w.done];
    }
  }

  // ----- The commit -----

  lemma {:induction false} SweepFromCalls(init: seq<Inventory>, db: Db, batch: seq<nat>, res: seq<Reservation>, k: nat)
    requires Inv(init, db) && |res| == |batch| && k <= |batch| && PendingFrom(db, batch, k)
    requires forall b | k <= b < |batch| :: res[b] == db.reservations[batch[b]]
    ensures SweepFrom(db, batch, k).Ok?
    ensures SweepFrom(db, batch, k).value.calls == db.calls + BatchCalls(batch, res, k)
    decreases |batch| - k
  {
    hide Books, SameStock, OrdersAgree;
    if k < |batch| {
      CloseEffect(init, db, batch[k], Expired);
      CloseCalls(init, db, batch[k]);
      var next := CloseTx(db, batch[k], Expired).value;
      PendingAfterClose(db, next, batch, k);
      SweepFromCalls(init, next, batch, res, k + 1);
    }
  }

  lemma CloseCalls(init: seq<Inventory>, db: Db, r: nat)
    requires Inv(init, db) && r < |db.reservations| && db.reservations[r].status == Pending
    requires CloseTx(db, r, Expired).Ok?
    ensures CloseTx(db, r, Expired).value.calls ==
            db.calls + SettlingCalls(ReleaseHold, r, db.reservations[r].items, 0)
  {
    ReadIsCurrent(init, db, r, ToCancel({}));
    ReleaseFromWrites(db, r, |db.reservations[r].items|, 0);
  }

  /** What the sweep sees is what it would leave if it ran alone. */
  lemma SeesSweptRows(init: seq<Inventory>, db: Db, w: Sweeper)
    requires Inv(init, db) && SweepsCurrent(db, w) && w.done == |ItemsOf(w)|
    requires PendingFrom(db, w.batch, 0) && SweepTx(db, w.batch).Ok?
    requires |SweepTx(db, w.batch).value.inventory| == |db.inventory|
    ensures SweepTx(db, w.batch).value.inventory == SweptDb(db, w).inventory
  {
    assert ItemsOf(w)[..w.done] == ItemsOf(w);
    forall i | 0 <= i < |db.inventory|
      ensures SweepTx(db, w.batch).value.inventory[i] == SweptDb(db, w).inventory[i]
    {
      BatchFits(init, db, w, i);
      assert FreedSoFar(db, w, i);
    }
  }

  /** A sweep that has released all its items commits what it would do alone, now. */
  lemma CommitSweepIsAtomic(init: seq<Inventory>, db: Db, w: Sweeper)
    requires Inv(init, db) && SweepsCurrent(db, w) && w.done == |ItemsOf(w)|
    ensures ValidOp(db, SweepOp(w)) && Attempt(db, SweepOp(w)) == Ok(SweptDb(db, w))
    ensures Inv(init, SweptDb(db, w))
  {
    assert forall b | 0 <= b < |w.batch| :: IsExpiredPending(db, w.now, w.batch[b]);
    SweepEffect(init, db, w.batch);
    SweepFromCalls(init, db, w.batch, w.res, 0);
    SeesSweptRows(init, db, w);
  }
}
