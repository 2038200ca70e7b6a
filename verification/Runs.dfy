/** Whole runs: what holds in every state that any sequence of requests can reach. */
module Runs {
  import opened Tables
  import opened Queries
  import opened Transactions
  import opened Operations
  import opened Ledger
  import opened Settlement
  import opened Booking
  import opened Steps

  /** A database with stock but no history. */
  ghost predicate Empty(db: Db) {
    && db.reservations == [] && db.orders == [] && db.calls == multiset{}
    && forall i | 0 <= i < |db.inventory| :: 0 <= db.inventory[i].qtyReserved
  }

  /** `trace` is a run of `ops` from an empty database. */
  ghost predicate IsRun(trace: seq<Db>, ops: seq<Op>) {
    && |trace| == |ops| + 1
    && Empty(trace[0])
    && forall i | 0 <= i < |ops| :: ValidOp(trace[i], ops[i]) && trace[i + 1] == Apply(trace[i], ops[i])
  }

  // ----- Invariants of every reachable state -----

  lemma {:induction false} RunKeepsInv(trace: seq<Db>, ops: seq<Op>, i: nat)
    requires IsRun(trace, ops) && i < |trace|
    ensures Inv(trace[0].inventory, trace[i])
    ensures i < |ops| ==> StepFacts(trace[i], ops[i], trace[i + 1])
  {
    var init := trace[0].inventory;
    if i == 0 {
      forall r: nat ensures CountOrders(trace[0].orders, r) == 0 {}
      forall j | 0 <= j < |init|
        ensures trace[0].inventory[j].qtyReserved == init[j].qtyReserved + Expected(trace[0], j)
      {}
    } else {
      RunKeepsInv(trace, ops, i - 1);
      ApplyKeepsInv(init, trace[i - 1], ops[i - 1]);
    }
    if i < |ops| {
      ApplyKeepsInv(init, trace[i], ops[i]);
    }
  }

  lemma EvolvesTransitive(a: Reservation, b: Reservation, c: Reservation)
    requires Evolves(a, b) && Evolves(b, c)
    ensures Evolves(a, c)
  {}

  /** A reservation's record is frozen, except that it leaves `pending` at most once; no final status is ever left. */
  lemma {:induction false} RecordsAreFinal(trace: seq<Db>, ops: seq<Op>, i: nat, j: nat, r: nat)
    requires IsRun(trace, ops) && i <= j < |trace| && r < |trace[i].reservations|
    ensures r < |trace[j].reservations| && Evolves(trace[i].reservations[r], trace[j].reservations[r])
    decreases j - i
  {
    if i < j {
      RunKeepsInv(trace, ops, i);
      RecordsAreFinal(trace, ops, i + 1, j, r);
      EvolvesTransitive(trace[i].reservations[r], trace[i + 1].reservations[r], trace[j].reservations[r]);
    }
  }

  /** Statuses, items and orders of every reachable state tell one story. */
  lemma StatusCoherence(trace: seq<Db>, ops: seq<Op>, i: nat, r: nat)
    requires IsRun(trace, ops) && i < |trace| && r < |trace[i].reservations|
    ensures
      var res, orders := trace[i].reservations[r], trace[i].orders;
      match res.status
      case Pending => CountOrders(orders, r) == 0 && AllLive(res.items)
      case Confirmed =>
        && CountOrders(orders, r) == 1
        && (exists o | 0 <= o < |orders| :: orders[o] == Order(r, res.userId))
        && (forall k | 0 <= k < |res.items| :: res.items[k].status == ItemConfirmed)
      case _ =>
        CountOrders(orders, r) == 0 && (forall k | 0 <= k < |res.items| :: res.items[k].status == Released)
  {
    RunKeepsInv(trace, ops, i);
    HasOrderCounts(trace[i].orders, r);
    assert StatusesAgree(trace[i].reservations[r]);
  }

  /** How often committed transactions called the provider's adapter, in this way, for item `k` of reservation `r`
      with this hold reference. */
  function CallCount(db: Db, kind: CallKind, r: nat, k: nat, ref: string): nat {
    db.calls[Call(kind, r, k, ref)]
  }

  /** In committed transactions, an item with a hold reference gets no settling call while its reservation is
      pending, and exactly one afterwards: a confirmation if it was confirmed, a release if it was cancelled or
      expired. Any other reference gets none, so neither does an item without one. Calls of rolled-back
      transactions are in Calls.dfy. */
  lemma CallDiscipline(trace: seq<Db>, ops: seq<Op>, i: nat, r: nat, k: nat, ref: string)
    requires IsRun(trace, ops) && i < |trace| && trace[i].HasItem(r, k)
    ensures
      var db := trace[i];
      var status, mine := db.reservations[r].status, db.ItemAt(r, k).holdRef == Some(ref);
      && CallCount(db, ConfirmHold, r, k, ref) == (if mine && status == Confirmed then 1 else 0)
      && CallCount(db, ReleaseHold, r, k, ref) == (if mine && status in [Cancelled, Expired] then 1 else 0)
      && (mine ==> db.ItemAt(r, k).status != ProviderFailed)
  {
    RunKeepsInv(trace, ops, i);
    var db := trace[i];
    assert StatusesAgree(db.reservations[r]);
    assert ItemOk(db, db.reservations[r].items[k]);
    assert db.calls[Call(ConfirmHold, r, k, ref)] == if Settled(db, Call(ConfirmHold, r, k, ref)) then 1 else 0;
    assert db.calls[Call(ReleaseHold, r, k, ref)] == if Settled(db, Call(ReleaseHold, r, k, ref)) then 1 else 0;
  }

  // ----- The counters, by reservation status -----

  /** All the quantity that a reservation's items have on a row. */
  function RowQty(items: seq<Item>, row: nat): int {
    if items == [] then 0
    else RowQty(items[..|items| - 1], row) +
         if items[|items| - 1].inventoryId == row then items[|items| - 1].qty else 0
  }

  /** Quantity on a row over the reservations with this status. */
  function StatusQty(rs: seq<Reservation>, row: nat, status: Status): int {
    if rs == [] then 0
    else StatusQty(rs[..|rs| - 1], row, status) +
         if rs[|rs| - 1].status == status then RowQty(rs[|rs| - 1].items, row) else 0
  }

  /** Quantity on a row over the reservations that are no longer pending. */
  function ClosedQty(rs: seq<Reservation>, row: nat): int {
    StatusQty(rs, row, Confirmed) + StatusQty(rs, row, Cancelled) + StatusQty(rs, row, Expired)
  }

  lemma {:induction false} OneSidedQty(items: seq<Item>, row: nat, side: Side)
    requires forall k | 0 <= k < |items| :: SideOf(items[k].status) == side
    ensures QtyOn(items, row, side) == RowQty(items, row)
    ensures forall other | other != side :: QtyOn(items, row, other) == 0
  {
    if items != [] {
      OneSidedQty(items[..|items| - 1], row, side);
    }
  }

  lemma {:induction false} SidesAreStatuses(rs: seq<Reservation>, row: nat)
    requires forall r | 0 <= r < |rs| :: StatusesAgree(rs[r])
    ensures TotalOn(rs, row, Live) == StatusQty(rs, row, Pending)
    ensures TotalOn(rs, row, Taken) == StatusQty(rs, row, Confirmed)
    ensures TotalOn(rs, row, Freed) == StatusQty(rs, row, Cancelled) + StatusQty(rs, row, Expired)
  {
    if rs != [] {
      var front, last := rs[..|rs| - 1], rs[|rs| - 1];
      assert forall r | 0 <= r < |front| :: front[r] == rs[r];
      SidesAreStatuses(front, row);
      var side := if last.status == Pending then Live else if last.status == Confirmed then Taken else Freed;
      assert StatusesAgree(last);
      OneSidedQty(last.items, row, side);
    }
  }

  /** The documented ledger, for external rows, and the one the code keeps, for internal rows. */
  lemma ReservedLedger(trace: seq<Db>, ops: seq<Op>, i: nat, row: nat)
    requires IsRun(trace, ops) && i < |trace| && row < |trace[0].inventory|
    ensures row < |trace[i].inventory| && trace[i].IsInternal(row) == trace[0].IsInternal(row)
    ensures
      var rs, start := trace[i].reservations, trace[0].inventory[row].qtyReserved;
      trace[i].inventory[row].qtyReserved == start + StatusQty(rs, row, Pending) +
        if trace[0].IsInternal(row) then StatusQty(rs, row, Pending) + ClosedQty(rs, row) else 0
  {
    RunKeepsInv(trace, ops, i);
    SameProviders(trace, ops, i);
    SidesAreStatuses(trace[i].reservations, row);
  }

  lemma {:induction false} SameProviders(trace: seq<Db>, ops: seq<Op>, i: nat)
    requires IsRun(trace, ops) && i < |trace|
    ensures trace[i].providers == trace[0].providers
  {
    if i > 0 {
      SameProviders(trace, ops, i - 1);
      RunKeepsInv(trace, ops, i - 1);
    }
  }

  lemma {:induction false} RowQtyBounds(items: seq<Item>, row: nat)
    requires Positive(items)
    ensures 0 <= RowQty(items, row)
  {
    if items != [] {
      assert forall k | 0 <= k < |items| - 1 :: items[..|items| - 1][k] == items[k];
      RowQtyBounds(items[..|items| - 1], row);
    }
  }

  lemma {:induction false} StatusQtyBounds(rs: seq<Reservation>, row: nat, status: Status)
    requires forall r | 0 <= r < |rs| :: Positive(rs[r].items)
    ensures 0 <= StatusQty(rs, row, status)
  {
    if rs != [] {
      assert forall r | 0 <= r < |rs| - 1 :: rs[..|rs| - 1][r] == rs[r];
      StatusQtyBounds(rs[..|rs| - 1], row, status);
      RowQtyBounds(rs[|rs| - 1].items, row);
    }
  }

  lemma ItemsArePositive(init: seq<Inventory>, db: Db)
    requires Books(init, db)
    ensures forall r | 0 <= r < |db.reservations| :: Positive(db.reservations[r].items)
  {
    forall r, k | 0 <= r < |db.reservations| && 0 <= k < |db.reservations[r].items|
      ensures db.reservations[r].items[k].qty > 0
    {
      assert ItemOk(db, db.reservations[r].items[k]);
    }
  }

  /** The documentation says `qtyReserved` is what pending reservations hold. On a row that started with
      nothing reserved that is so exactly when the row is external, or nothing was ever reserved on it. */
  lemma DocumentedMeaning(trace: seq<Db>, ops: seq<Op>, i: nat, row: nat)
    requires IsRun(trace, ops) && i < |trace| && row < |trace[0].inventory|
    requires trace[0].inventory[row].qtyReserved == 0
    ensures row < |trace[i].inventory|
    ensures
      var rs := trace[i].reservations;
      trace[i].inventory[row].qtyReserved == StatusQty(rs, row, Pending) <==>
      !trace[0].IsInternal(row) || (StatusQty(rs, row, Pending) == 0 && ClosedQty(rs, row) == 0)
  {
    ReservedLedger(trace, ops, i, row);
    RunKeepsInv(trace, ops, i);
    var rs := trace[i].reservations;
    ItemsArePositive(trace[0].inventory, trace[i]);
    StatusQtyBounds(rs, row, Pending);
    StatusQtyBounds(rs, row, Confirmed);
    StatusQtyBounds(rs, row, Cancelled);
    StatusQtyBounds(rs, row, Expired);
  }

  // ----- Safety of the counters -----

  /** Request `i` of the run overwrites the row's stock. */
  ghost predicate SyncsAt(trace: seq<Db>, ops: seq<Op>, i: nat, row: nat)
    requires IsRun(trace, ops)
  {
    i < |ops| && row < |trace[i].inventory| && SyncsRow(trace[i], ops[i], row)
  }

  /** Requests only ever move quantity out of `Live`. */
  lemma {:induction false} TotalsEvolve(before: seq<Reservation>, after: seq<Reservation>, row: nat)
    requires |after| == |before|
    requires forall r | 0 <= r < |before| ::
               StatusesAgree(before[r]) && Positive(before[r].items) && Evolves(before[r], after[r])
    ensures TotalOn(after, row, Live) + TotalOn(after, row, Freed) + TotalOn(after, row, Taken)
         == TotalOn(before, row, Live) + TotalOn(before, row, Freed) + TotalOn(before, row, Taken)
    ensures TotalOn(after, row, Freed) >= TotalOn(before, row, Freed)
    ensures TotalOn(after, row, Taken) >= TotalOn(before, row, Taken)
  {
    if before != [] {
      var last := |before| - 1;
      assert forall r | 0 <= r < last :: before[..last][r] == before[r] && after[..last][r] == after[r];
      TotalsEvolve(before[..last], after[..last], row);
      QtyEvolves(before[last], after[last], row);
    }
  }

  lemma QtyEvolves(before: Reservation, after: Reservation, row: nat)
    requires StatusesAgree(before) && Positive(before.items) && Evolves(before, after)
    ensures QtyOn(after.items, row, Live) + QtyOn(after.items, row, Freed) + QtyOn(after.items, row, Taken)
         == QtyOn(before.items, row, Live) + QtyOn(before.items, row, Freed) + QtyOn(before.items, row, Taken)
    ensures QtyOn(after.items, row, Freed) >= QtyOn(before.items, row, Freed)
    ensures QtyOn(after.items, row, Taken) >= QtyOn(before.items, row, Taken)
  {
    if before != after {
      var side := SideOf(SettledAs(after.status));
      OneSidedQty(before.items, row, Live);
      OneSidedQty(after.items, row, side);
      MarkedQty(before.items, SettledAs(after.status), row);
      RowQtyBounds(before.items, row);
    }
  }

  lemma {:induction false} MarkedQty(items: seq<Item>, status: ItemStatus, row: nat)
    ensures RowQty(Marked(items, 0, status), row) == RowQty(items, row)
  {
    if items != [] {
      var last := |items| - 1;
      MarkedQty(items[..last], status, row);
      assert Marked(items, 0, status)[..last] == Marked(items[..last], 0, status);
    }
  }

  lemma CreateFitsStock(db: Db, op: Op, row: nat)
    requires ValidOp(db, op) && op.Create? && Attempt(db, op).Ok? && row < |db.inventory|
    requires 0 <= db.inventory[row].Effective()
    ensures row < |Apply(db, op).inventory| && 0 <= Apply(db, op).inventory[row].Effective()
  {
    CreateEffect(db, op.userId, op.lines, op.seen, op.holds, op.expiresAt);
    var ids, after := IdsOf(op.seen), Apply(db, op);
    if j :| 0 <= j < |ids| && ids[j] == row {
      assert LineFits(db, op.lines[j], op.seen[j], op.holds[j]);
      assert after.inventory[ids[j]] == BookedRows(db, ids, op.lines)[j];
    } else {
      assert after.inventory[row] == db.inventory[row];
    }
  }

  lemma ClosingFreesStock(init: seq<Inventory>, db: Db, after: Db, row: nat)
    requires Inv(init, db) && Inv(init, after) && row < |init| && after.providers == db.providers
    requires |after.reservations| == |db.reservations|
    requires forall r | 0 <= r < |db.reservations| :: Evolves(db.reservations[r], after.reservations[r])
    requires StockBase(after, row) == StockBase(db, row)
    ensures db.inventory[row].Effective() <= after.inventory[row].Effective()
  {
    ItemsArePositive(init, db);
    TotalsEvolve(db.reservations, after.reservations, row);
    assert after.IsInternal(row) == db.IsInternal(row);
  }

  /** No request but a sync can take a row's effective stock below zero. */
  lemma EffectiveStaysPositive(init: seq<Inventory>, db: Db, op: Op, row: nat)
    requires Inv(init, db) && ValidOp(db, op) && row < |init|
    requires !SyncsRow(db, op, row) && 0 <= db.inventory[row].Effective()
    ensures row < |Apply(db, op).inventory| && 0 <= Apply(db, op).inventory[row].Effective()
  {
    if op.Create? && Attempt(db, op).Ok? {
      CreateFitsStock(db, op, row);
    } else {
      ApplyKeepsInv(init, db, op);
      OnlyCreateAdds(db, op);
      ClosingFreesStock(init, db, Apply(db, op), row);
    }
  }

  lemma OnlyCreateAdds(db: Db, op: Op)
    requires ValidOp(db, op) && (op.Create? ==> Apply(db, op) == db)
    ensures |Apply(db, op).reservations| == |db.reservations|
  {
    if op.Sync? && Attempt(db, op).Ok? {
      SyncEffect(db, op.pid, op.stocks, op.now);
    }
  }

  lemma NothingNegative(init: seq<Inventory>, db: Db, row: nat)
    requires Inv(init, db) && row < |init|
    ensures 0 <= db.inventory[row].qtyReserved
  {
    ItemsArePositive(init, db);
    TotalBounds(db.reservations, row, Live);
    TotalBounds(db.reservations, row, Freed);
    TotalBounds(db.reservations, row, Taken);
  }

  /** No oversell: a row that starts sound and is not synced has 0 <= qtyReserved <= qtyAvailable in every
      reachable state, internal or external. Without the sync condition, `qtyReserved` is still never negative. */
  lemma {:induction false} CountersStaySound(trace: seq<Db>, ops: seq<Op>, i: nat, row: nat)
    requires IsRun(trace, ops) && i < |trace| && row < |trace[0].inventory|
    ensures row < |trace[i].inventory| && 0 <= trace[i].inventory[row].qtyReserved
    ensures
      (forall j | 0 <= j < i :: !SyncsAt(trace, ops, j, row)) &&
      trace[0].inventory[row].qtyReserved <= trace[0].inventory[row].qtyAvailable
      ==> trace[i].inventory[row].qtyReserved <= trace[i].inventory[row].qtyAvailable
  {
    hide Attempt, ValidOp, SyncsRow;
    RunKeepsInv(trace, ops, i);
    NothingNegative(trace[0].inventory, trace[i], row);
    if i > 0 {
      CountersStaySound(trace, ops, i - 1, row);
      RunKeepsInv(trace, ops, i - 1);
      if !SyncsAt(trace, ops, i - 1, row) && 0 <= trace[i - 1].inventory[row].Effective() {
        EffectiveStaysPositive(trace[0].inventory, trace[i - 1], ops[i - 1], row);
      }
    }
  }

  lemma {:induction false} InternalRowsAreNotSynced(trace: seq<Db>, ops: seq<Op>, i: nat, row: nat)
    requires IsRun(trace, ops) && row < |trace[0].inventory| && trace[0].IsInternal(row)
    ensures !SyncsAt(trace, ops, i, row)
  {
    if i < |ops| {
      RunKeepsInv(trace, ops, i);
      SameProviders(trace, ops, i);
    }
  }

  /** On internal rows nothing is ever synced: one that starts sound stays so in every run. */
  lemma InternalRowsStaySound(trace: seq<Db>, ops: seq<Op>, i: nat, row: nat)
    requires IsRun(trace, ops) && i < |trace| && row < |trace[0].inventory| && trace[0].IsInternal(row)
    requires trace[0].inventory[row].qtyReserved <= trace[0].inventory[row].qtyAvailable
    ensures row < |trace[i].inventory|
    ensures 0 <= trace[i].inventory[row].qtyReserved <= trace[i].inventory[row].qtyAvailable
  {
    forall j | 0 <= j < i ensures !SyncsAt(trace, ops, j, row) {
      InternalRowsAreNotSynced(trace, ops, j, row);
    }
    CountersStaySound(trace, ops, i, row);
  }

  // ----- Conservation of stock -----

  /** The state right after the row's last successful sync before state `i`, or the first state. */
  ghost function LastSync(trace: seq<Db>, ops: seq<Op>, i: nat, row: nat): (j: nat)
    requires IsRun(trace, ops) && i < |trace| && row < |trace[0].inventory|
    ensures j <= i
  {
    if i == 0 then 0
    else if SyncsAt(trace, ops, i - 1, row) then i
    else LastSync(trace, ops, i - 1, row)
  }

  lemma StockStep(trace: seq<Db>, ops: seq<Op>, i: nat, row: nat)
    requires IsRun(trace, ops) && i < |ops| && row < |trace[0].inventory|
    ensures row < |trace[i].inventory| == |trace[i + 1].inventory|
    ensures trace[i + 1].inventory[row].qtyAvailable ==
            if SyncsAt(trace, ops, i, row) then SyncedQty(ops[i], row)
            else trace[i].inventory[row].qtyAvailable
                 - (StatusQty(trace[i + 1].reservations, row, Confirmed)
                    - StatusQty(trace[i].reservations, row, Confirmed))
  {
    RunKeepsInv(trace, ops, i);
    SidesAreStatuses(trace[i].reservations, row);
    RunKeepsInv(trace, ops, i + 1);
    SidesAreStatuses(trace[i + 1].reservations, row);
  }

  /** From state `j` to state `i`, the row's stock fell by exactly what was confirmed in between. */
  ghost predicate ConservedSince(trace: seq<Db>, j: nat, i: nat, row: nat)
    requires j < |trace| && i < |trace|
  {
    && row < |trace[i].inventory| && row < |trace[j].inventory|
    && trace[i].inventory[row].qtyAvailable == trace[j].inventory[row].qtyAvailable
         - (StatusQty(trace[i].reservations, row, Confirmed) - StatusQty(trace[j].reservations, row, Confirmed))
  }

  lemma ConservedStep(trace: seq<Db>, ops: seq<Op>, j: nat, i: nat, row: nat)
    requires IsRun(trace, ops) && i < |ops| && j <= i && row < |trace[0].inventory|
    requires ConservedSince(trace, j, i, row) && !SyncsAt(trace, ops, i, row)
    ensures ConservedSince(trace, j, i + 1, row)
  {
    StockStep(trace, ops, i, row);
  }

  lemma {:induction false} LastSyncIsSync(trace: seq<Db>, ops: seq<Op>, i: nat, row: nat)
    requires IsRun(trace, ops) && i < |trace| && row < |trace[0].inventory|
    ensures
      var j := LastSync(trace, ops, i, row);
      0 < j ==>
        && SyncsAt(trace, ops, j - 1, row) && row < |trace[j].inventory|
        && trace[j].inventory[row].qtyAvailable == SyncedQty(ops[j - 1], row)
  {
    hide Apply, ValidOp, SyncsRow, StatusQty;
    if i > 0 {
      LastSyncIsSync(trace, ops, i - 1, row);
      StockStep(trace, ops, i - 1, row);
    }
  }

  lemma {:induction false} ConservedSinceSync(trace: seq<Db>, ops: seq<Op>, i: nat, row: nat)
    requires IsRun(trace, ops) && i < |trace| && row < |trace[0].inventory|
    ensures ConservedSince(trace, LastSync(trace, ops, i, row), i, row)
  {
    hide Apply, ValidOp, SyncsRow, StatusQty;
    if i > 0 {
      StockStep(trace, ops, i - 1, row);
      if !SyncsAt(trace, ops, i - 1, row) {
        ConservedSinceSync(trace, ops, i - 1, row);
        ConservedStep(trace, ops, LastSync(trace, ops, i - 1, row), i - 1, row);
      }
    }
  }

  /** `qtyAvailable` is the last synced (or initial) figure minus everything confirmed since. */
  lemma StockIsConserved(trace: seq<Db>, ops: seq<Op>, i: nat, row: nat)
    requires IsRun(trace, ops) && i < |trace| && row < |trace[0].inventory|
    ensures ConservedSince(trace, LastSync(trace, ops, i, row), i, row)
    ensures
      var j := LastSync(trace, ops, i, row);
      0 < j ==>
        SyncsAt(trace, ops, j - 1, row) && trace[j].inventory[row].qtyAvailable == SyncedQty(ops[j - 1], row)
  {
    ConservedSinceSync(trace, ops, i, row);
    LastSyncIsSync(trace, ops, i, row);
  }

  /** Without syncs, what is sold and what is promised never exceed the initial stock. */
  lemma NothingSoldTwice(trace: seq<Db>, ops: seq<Op>, i: nat, row: nat)
    requires IsRun(trace, ops) && i < |trace| && row < |trace[0].inventory|
    requires forall j | 0 <= j < i :: !SyncsAt(trace, ops, j, row)
    requires trace[0].inventory[row].qtyReserved == 0 <= trace[0].inventory[row].qtyAvailable
    ensures
      var rs := trace[i].reservations;
      StatusQty(rs, row, Confirmed) + StatusQty(rs, row, Pending) <= trace[0].inventory[row].qtyAvailable
  {
    StockIsConserved(trace, ops, i, row);
    NoSyncNoReset(trace, ops, i, row);
    CountersStaySound(trace, ops, i, row);
    ReservedLedger(trace, ops, i, row);
    RunKeepsInv(trace, ops, i);
    ItemsArePositive(trace[0].inventory, trace[i]);
    StatusQtyBounds(trace[i].reservations, row, Pending);
    StatusQtyBounds(trace[i].reservations, row, Confirmed);
    StatusQtyBounds(trace[i].reservations, row, Cancelled);
    StatusQtyBounds(trace[i].reservations, row, Expired);
  }

  lemma {:induction false} NoSyncNoReset(trace: seq<Db>, ops: seq<Op>, i: nat, row: nat)
    requires IsRun(trace, ops) && i < |trace| && row < |trace[0].inventory|
    requires forall j | 0 <= j < i :: !SyncsAt(trace, ops, j, row)
    ensures LastSync(trace, ops, i, row) == 0
  {
    if i > 0 {
      NoSyncNoReset(trace, ops, i - 1, row);
    }
  }

  // ----- Guards that never fire -----

  /** In every reachable state, whatever a request asks and a provider answers: `confirm` never meets a
      duplicate order, a taken order key, or an adapter without a row; `cancel` fails only on an unknown or a
      confirmed reservation; the sweep never fails; and a release never needs its clamp at zero. */
  lemma DeadGuards(trace: seq<Db>, ops: seq<Op>, i: nat)
    requires IsRun(trace, ops) && i < |trace|
    ensures forall rid: int, now: int, outs: seq<ConfirmOutcome> | AnswersEachItem(trace[i], rid, outs) ::
              var tx := ConfirmTx(trace[i], rid, now, outs);
              tx.Err? ==> tx.error in [ReservationNotFound(rid), ReservationState(rid), ProviderRaised]
    ensures forall rid: int ::
              CancelTx(trace[i], rid).Err? <==>
              !(0 <= rid < |trace[i].reservations|) || trace[i].reservations[rid].status == Confirmed
    ensures forall now: int, batch: seq<nat> | SweepsExpired(trace[i], now, batch) :: SweepTx(trace[i], batch).Ok?
    ensures forall r: nat, k: nat | trace[i].HasItem(r, k) && trace[i].reservations[r].status == Pending ::
              var item := trace[i].ItemAt(r, k);
              && item.inventoryId < |trace[i].inventory|
              && item.qty <= trace[i].inventory[item.inventoryId].qtyReserved
              && item.status != Released && item.status != ItemConfirmed
  {
    var init, db := trace[0].inventory, trace[i];
    RunKeepsInv(trace, ops, i);
    forall rid: int, now: int, outs: seq<ConfirmOutcome> | AnswersEachItem(db, rid, outs)
      ensures ConfirmTx(db, rid, now, outs).Err? ==>
                ConfirmTx(db, rid, now, outs).error in [ReservationNotFound(rid), ReservationState(rid), ProviderRaised]
    {
      ConfirmEffect(init, db, rid, now, outs);
    }
    forall rid: int
      ensures CancelTx(db, rid).Err? <==> !(0 <= rid < |db.reservations|) || db.reservations[rid].status == Confirmed
    {
      if 0 <= rid < |db.reservations| && db.reservations[rid].status == Pending {
        CloseEffect(init, db, rid, Cancelled);
      }
    }
    forall now: int, batch: seq<nat> | SweepsExpired(db, now, batch) ensures SweepTx(db, batch).Ok? {
      assert forall b | 0 <= b < |batch| :: IsExpiredPending(db, now, batch[b]);
      SweepEffect(init, db, batch);
    }
    forall r: nat, k: nat | db.HasItem(r, k) && db.reservations[r].status == Pending
      ensures
        var item := db.ItemAt(r, k);
        && item.inventoryId < |db.inventory| && item.qty <= db.inventory[item.inventoryId].qtyReserved
        && item.status != Released && item.status != ItemConfirmed
    {
      assert StatusesAgree(db.reservations[r]);
      LiveItemIsReserved(init, db, r, k);
    }
  }

  // ----- Round trips -----

  /** What a request makes of a pending reservation: the closing requests, and no others, end it. */
  function StatusAfter(db: Db, op: Op, r: nat): Status
    requires ValidOp(db, op)
  {
    if op.Confirm? && op.rid == r && Attempt(db, op).Ok? then Confirmed
    else if op.Cancel? && op.rid == r then Cancelled
    else if op.Sweep? && r in op.batch then Expired
    else Pending
  }

  lemma CloserCloses(init: seq<Inventory>, db: Db, op: Op, r: nat)
    requires Inv(init, db) && ValidOp(db, op) && r < |db.reservations| && db.reservations[r].status == Pending
    requires StatusAfter(db, op, r) != Pending
    ensures |Apply(db, op).reservations| == |db.reservations|
    ensures Apply(db, op).reservations[r] == Closed(db.reservations[r], StatusAfter(db, op, r))
  {
    hide Books, SameStock, OrdersAgree;
    match op
    case Confirm(rid, now, answers) => ConfirmEffect(init, db, rid, now, answers);
    case Cancel(_, _) => CloseEffect(init, db, r, Cancelled);
    case Sweep(now, batch, _) =>
      assert forall b | 0 <= b < |batch| :: IsExpiredPending(db, now, batch[b]);
      SweepEffect(init, db, batch);
  }

  /** A pending reservation is closed by its committed confirmation, by its cancellation, and by any sweep whose
      batch has it; every other request leaves its record alone. */
  lemma ClosersClose(trace: seq<Db>, ops: seq<Op>, c: nat, r: nat)
    requires IsRun(trace, ops) && c < |ops| && r < |trace[c].reservations| && trace[c].reservations[r].status == Pending
    ensures r < |trace[c + 1].reservations|
    ensures
      var status := StatusAfter(trace[c], ops[c], r);
      trace[c + 1].reservations[r] ==
        if status == Pending then trace[c].reservations[r] else Closed(trace[c].reservations[r], status)
  {
    RunKeepsInv(trace, ops, c);
    if StatusAfter(trace[c], ops[c], r) != Pending {
      CloserCloses(trace[0].inventory, trace[c], ops[c], r);
    }
  }

  /** What closing one reservation does to the counters of a row. */
  lemma CloseDelta(init: seq<Inventory>, db: Db, after: Db, r: nat, status: Status, row: nat)
    requires Inv(init, db) && Inv(init, after) && row < |init| && after.providers == db.providers
    requires r < |db.reservations| && db.reservations[r].status == Pending && status != Pending
    requires after.reservations == db.reservations[r := Closed(db.reservations[r], status)]
    requires StockBase(after, row) == StockBase(db, row)
    ensures
      var qty := RowQty(db.reservations[r].items, row);
      && after.inventory[row].qtyReserved == db.inventory[row].qtyReserved - qty
      && after.inventory[row].qtyAvailable == db.inventory[row].qtyAvailable - if status == Confirmed then qty else 0
  {
    var res := db.reservations[r];
    assert StatusesAgree(res) && StatusesAgree(after.reservations[r]);
    OneSidedQty(res.items, row, Live);
    OneSidedQty(Closed(res, status).items, row, SideOf(SettledAs(status)));
    MarkedQty(res.items, SettledAs(status), row);
    TotalUpdate(db.reservations, r, Closed(res, status), row, Live);
    TotalUpdate(db.reservations, r, Closed(res, status), row, Freed);
    TotalUpdate(db.reservations, r, Closed(res, status), row, Taken);
    assert after.IsInternal(row) == db.IsInternal(row);
  }

  /** The quantity on a row over the reservations of a batch, from the `k`-th on. */
  function BatchQty(rs: seq<Reservation>, batch: seq<nat>, k: nat, row: nat): int
    requires k <= |batch| && forall b | 0 <= b < |batch| :: batch[b] < |rs|
    decreases |batch| - k
  {
    if k == |batch| then 0 else RowQty(rs[batch[k]].items, row) + BatchQty(rs, batch, k + 1, row)
  }

  lemma {:induction false} BatchQtyElsewhere(
    before: seq<Reservation>, after: seq<Reservation>, batch: seq<nat>, k: nat, row: nat)
    requires k <= |batch| && |after| == |before| && forall b | 0 <= b < |batch| :: batch[b] < |before|
    requires forall b | k <= b < |batch| :: after[batch[b]] == before[batch[b]]
    ensures BatchQty(after, batch, k, row) == BatchQty(before, batch, k, row)
    decreases |batch| - k
  {
    if k < |batch| {
      BatchQtyElsewhere(before, after, batch, k + 1, row);
    }
  }

  lemma CloseRow(init: seq<Inventory>, db: Db, r: nat, row: nat)
    requires Inv(init, db) && r < |db.reservations| && db.reservations[r].status == Pending && row < |init|
    ensures CloseTx(db, r, Expired).Ok? && row < |db.inventory| == |CloseTx(db, r, Expired).value.inventory|
    ensures CloseTx(db, r, Expired).value.inventory[row] ==
            var was := db.inventory[row];
            was.(qtyReserved := was.qtyReserved - RowQty(db.reservations[r].items, row))
  {
    CloseEffect(init, db, r, Expired);
    CloseDelta(init, db, CloseTx(db, r, Expired).value, r, Expired, row);
  }

  /** What a sweep does to a row: it frees all that its batch holds there, and sells nothing. */
  lemma {:induction false} SweepDelta(init: seq<Inventory>, db: Db, batch: seq<nat>, k: nat, row: nat)
    requires Inv(init, db) && k <= |batch| && PendingFrom(db, batch, k) && row < |init|
    ensures SweepFrom(db, batch, k).Ok? && row < |db.inventory| == |SweepFrom(db, batch, k).value.inventory|
    ensures SweepFrom(db, batch, k).value.inventory[row] ==
            var was := db.inventory[row];
            was.(qtyReserved := was.qtyReserved - BatchQty(db.reservations, batch, k, row))
    decreases |batch| - k
  {
    hide LedgerHolds, ItemsOk, CallsOk, SameStock, OrdersAgree;
    if k < |batch| {
      CloseEffect(init, db, batch[k], Expired);
      CloseRow(init, db, batch[k], row);
      var next := CloseTx(db, batch[k], Expired).value;
      PendingAfterClose(db, next, batch, k);
      SweepDelta(init, next, batch, k + 1, row);
      BatchQtyElsewhere(db.reservations, next.reservations, batch, k + 1, row);
    }
  }

  /** The same without reservation `r`: what the rest of its batch holds on the row. */
  function OthersQty(rs: seq<Reservation>, batch: seq<nat>, k: nat, r: nat, row: nat): int
    requires k <= |batch| && forall b | 0 <= b < |batch| :: batch[b] < |rs|
    decreases |batch| - k
  {
    if k == |batch| then 0
    else (if batch[k] == r then 0 else RowQty(rs[batch[k]].items, row)) + OthersQty(rs, batch, k + 1, r, row)
  }

  lemma {:induction false} BatchWithoutOne(rs: seq<Reservation>, batch: seq<nat>, k: nat, r: nat, row: nat)
    requires k <= |batch| && r < |rs| && forall b | 0 <= b < |batch| :: batch[b] < |rs|
    requires forall b, c | k <= b < c < |batch| :: batch[b] != batch[c]
    ensures BatchQty(rs, batch, k, row) ==
            OthersQty(rs, batch, k, r, row) + if r in batch[k..] then RowQty(rs[r].items, row) else 0
    decreases |batch| - k
  {
    if k < |batch| {
      BatchWithoutOne(rs, batch, k + 1, r, row);
      assert batch[k..] == [batch[k]] + batch[k + 1..];
    }
  }

  /** What the other reservations that a request closes had on the row. */
  function ClosedBesides(db: Db, op: Op, r: nat, row: nat): int
    requires ValidOp(db, op)
  {
    if op.Sweep? then
      assert forall b | 0 <= b < |op.batch| :: IsExpiredPending(db, op.now, op.batch[b]);
      OthersQty(db.reservations, op.batch, 0, r, row)
    else 0
  }

  lemma SweptDelta(init: seq<Inventory>, db: Db, op: Op, r: nat, row: nat)
    requires Inv(init, db) && ValidOp(db, op) && op.Sweep? && r in op.batch && r < |db.reservations| && row < |init|
    ensures row < |db.inventory| == |Apply(db, op).inventory|
    ensures
      var before, after := db.inventory[row], Apply(db, op).inventory[row];
      && after.qtyReserved ==
         before.qtyReserved - RowQty(db.reservations[r].items, row) - ClosedBesides(db, op, r, row)
      && after.qtyAvailable == before.qtyAvailable
  {
    assert forall b | 0 <= b < |op.batch| :: IsExpiredPending(db, op.now, op.batch[b]);
    SweepDelta(init, db, op.batch, 0, row);
    BatchWithoutOne(db.reservations, op.batch, 0, r, row);
    assert op.batch[0..] == op.batch;
  }

  /** What a closing request does to a row: it frees what the reservation holds there and what the rest of its
      batch does, and sells the former if it confirms. */
  lemma CloserDelta(init: seq<Inventory>, db: Db, op: Op, r: nat, row: nat)
    requires Inv(init, db) && ValidOp(db, op) && r < |db.reservations| && db.reservations[r].status == Pending
    requires StatusAfter(db, op, r) != Pending && row < |init|
    ensures row < |db.inventory| == |Apply(db, op).inventory|
    ensures
      var before, after, qty := db.inventory[row], Apply(db, op).inventory[row], RowQty(db.reservations[r].items, row);
      && after.qtyReserved == before.qtyReserved - qty - ClosedBesides(db, op, r, row)
      && after.qtyAvailable == before.qtyAvailable - if StatusAfter(db, op, r) == Confirmed then qty else 0
  {
    hide LedgerHolds, ItemsOk, CallsOk, OrdersAgree, SweepsExpired, CreateTx, SyncTx;
    match op
    case Confirm(rid, now, answers) =>
      ConfirmEffect(init, db, rid, now, answers);
      CloseDelta(init, db, Apply(db, op), r, Confirmed, row);
    case Cancel(_, _) =>
      CloseEffect(init, db, r, Cancelled);
      CloseDelta(init, db, Apply(db, op), r, Cancelled, row);
    case Sweep(_, _, _) => SweptDelta(init, db, op, r, row);
  }

  lemma BookedRowDelta(init: seq<Inventory>, db: Db, op: Op, row: nat)
    requires Inv(init, db) && ValidOp(db, op) && op.Create? && Attempt(db, op).Ok? && row < |init|
    ensures row < |Apply(db, op).inventory| && |Apply(db, op).reservations| == |db.reservations| + 1
    ensures
      var res := Apply(db, op).reservations[|db.reservations|];
      && res.status == Pending
      && Apply(db, op).inventory[row] ==
         db.inventory[row].Reserve(if db.IsInternal(row) then 2 * RowQty(res.items, row) else RowQty(res.items, row))
  {
    CreateKeepsInv(init, db, op.userId, op.lines, op.seen, op.holds, op.expiresAt);
    OneSidedQty(Apply(db, op).reservations[|db.reservations|].items, row, Live);
  }

  /** What a committed `create` does to the counters of a row. */
  lemma CreateDelta(trace: seq<Db>, ops: seq<Op>, a: nat, row: nat)
    requires IsRun(trace, ops) && a < |ops| && row < |trace[0].inventory|
    requires ops[a].Create? && |trace[a + 1].reservations| == |trace[a].reservations| + 1
    ensures row < |trace[a].inventory| == |trace[a + 1].inventory|
    ensures
      var r := |trace[a].reservations|;
      var qty := RowQty(trace[a + 1].reservations[r].items, row);
      && trace[a + 1].inventory[row].qtyAvailable == trace[a].inventory[row].qtyAvailable
      && trace[a + 1].inventory[row].qtyReserved == trace[a].inventory[row].qtyReserved
           + (if trace[0].IsInternal(row) then 2 * qty else qty)
      && trace[a + 1].reservations[r].status == Pending
  {
    RunKeepsInv(trace, ops, a);
    ReservedLedger(trace, ops, a, row);
    BookedRowDelta(trace[0].inventory, trace[a], ops[a], row);
  }

  /** Request `a` creates a reservation, and request `c` closes it, alone or as one of a batch; anything may run in
      between. Over the whole stretch each counter changes as the other reservations of the batch and the requests
      in between changed it, and besides: an external row is left as it was, except for the stock sold by a
      confirmation. An internal row keeps the quantity reserved. */
  lemma RoundTrip(trace: seq<Db>, ops: seq<Op>, a: nat, c: nat, row: nat)
    requires IsRun(trace, ops) && a < c < |ops| && row < |trace[0].inventory|
    requires ops[a].Create? && |trace[a + 1].reservations| == |trace[a].reservations| + 1
    requires |trace[a].reservations| < |trace[c].reservations|
    requires trace[c].reservations[|trace[a].reservations|].status == Pending
    requires StatusAfter(trace[c], ops[c], |trace[a].reservations|) != Pending
    ensures row < |trace[a].inventory| == |trace[a + 1].inventory|
    ensures row < |trace[c].inventory| == |trace[c + 1].inventory|
    ensures
      var r := |trace[a].reservations|;
      var qty, status := RowQty(trace[c].reservations[r].items, row), StatusAfter(trace[c], ops[c], r);
      && trace[c + 1].inventory[row].qtyReserved - trace[a].inventory[row].qtyReserved ==
         trace[c].inventory[row].qtyReserved - trace[a + 1].inventory[row].qtyReserved
         - ClosedBesides(trace[c], ops[c], r, row)
         + (if trace[0].IsInternal(row) then qty else 0)
      && trace[c + 1].inventory[row].qtyAvailable - trace[a].inventory[row].qtyAvailable ==
         trace[c].inventory[row].qtyAvailable - trace[a + 1].inventory[row].qtyAvailable
         - (if status == Confirmed then qty else 0)
  {
    CreateDelta(trace, ops, a, row);
    RunKeepsInv(trace, ops, c);
    CloserDelta(trace[0].inventory, trace[c], ops[c], |trace[a].reservations|, row);
    RecordsAreFinal(trace, ops, a + 1, c, |trace[a].reservations|);
  }

  // ----- Time -----

  predicate Timed(op: Op) { op.Confirm? || op.Sweep? }

  ghost predicate ClockAdvances(ops: seq<Op>) {
    forall i, j | 0 <= i < j < |ops| && Timed(ops[i]) && Timed(ops[j]) :: ops[i].now <= ops[j].now
  }

  /** At any instant a pending reservation is confirmable or sweepable, and never both. */
  lemma ConfirmableOrSweepable(trace: seq<Db>, ops: seq<Op>, i: nat, r: nat, now: int)
    requires IsRun(trace, ops) && i < |trace| && r < |trace[i].reservations|
    requires trace[i].reservations[r].status == Pending
    ensures ConfirmGuard(trace[i], r, now).None? <==> !IsExpiredPending(trace[i], now, r)
  {
    RunKeepsInv(trace, ops, i);
    HasOrderCounts(trace[i].orders, r);
  }

  /** Whoever closes a reservation is entitled to: it is confirmed no later than its expiry, swept
      only after it, and otherwise cancelled. */
  lemma ClosedInTime(trace: seq<Db>, ops: seq<Op>, i: nat, r: nat)
    requires IsRun(trace, ops) && i < |ops| && r < |trace[i].reservations|
    ensures r < |trace[i + 1].reservations|
    ensures trace[i + 1].reservations[r].status != trace[i].reservations[r].status ==>
              && trace[i].reservations[r].status == Pending
              && match trace[i + 1].reservations[r].status
                 case Pending => false
                 case Confirmed => ops[i].Confirm? && ops[i].now <= trace[i].reservations[r].expiresAt
                 case Cancelled => ops[i].Cancel?
                 case Expired => ops[i].Sweep? && trace[i].reservations[r].expiresAt < ops[i].now
  {
    RunKeepsInv(trace, ops, i);
  }

  /** Once a timed request has run after a reservation's expiry, it will never be confirmed, unless it already is. */
  lemma ExpiryIsFinal(trace: seq<Db>, ops: seq<Op>, i: nat, j: nat, r: nat)
    requires IsRun(trace, ops) && ClockAdvances(ops) && i <= j < |ops| && r < |trace[i].reservations|
    requires Timed(ops[i]) && trace[i].reservations[r].expiresAt < ops[i].now
    requires trace[i].reservations[r].status != Confirmed
    ensures r < |trace[j + 1].reservations| && trace[j + 1].reservations[r].status != Confirmed
    decreases j - i
  {
    RecordsAreFinal(trace, ops, i, j, r);
    RecordsAreFinal(trace, ops, i, j + 1, r);
    ClosedInTime(trace, ops, j, r);
    if i < j {
      assert Timed(ops[j]) ==> ops[i].now <= ops[j].now;
      ExpiryIsFinal(trace, ops, i, j - 1, r);
    }
  }
}
