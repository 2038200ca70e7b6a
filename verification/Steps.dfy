/** What one request does to a database that satisfies the invariant. */
module Steps {
  import opened Tables
  import opened Schemas
  import opened Queries
  import opened Transactions
  import opened Operations
  import opened Ledger
  import opened Settlement
  import opened Booking

  // ----- create -----

  /** When no two items share a row, a row's quantity is that of its one item. */
  lemma {:induction false} QtyOfRow(items: seq<Item>, row: nat, side: Side)
    requires DistinctRows(items)
    ensures forall k | 0 <= k < |items| && items[k].inventoryId == row ::
              QtyOn(items, row, side) == Share(items[k], row, side)
    ensures (forall k | 0 <= k < |items| :: items[k].inventoryId != row) ==> QtyOn(items, row, side) == 0
  {
    if items != [] {
      var last := |items| - 1;
      QtyOfRow(items[..last], row, side);
      assert forall k | 0 <= k < last :: items[..last][k] == items[k];
    }
  }

  ghost predicate AllLive(items: seq<Item>) {
    forall k | 0 <= k < |items| :: items[k].status == Held || items[k].status == ProviderFailed
  }

  lemma {:induction false} LiveItemsOnly(items: seq<Item>, row: nat)
    requires AllLive(items)
    ensures QtyOn(items, row, Freed) == 0 && QtyOn(items, row, Taken) == 0
  {
    if items != [] {
      LiveItemsOnly(items[..|items| - 1], row);
    }
  }

  /** The new items are live, on distinct rows, and well formed. */
  lemma HeldItemsOk(db: Db, lines: seq<Line>, ids: seq<nat>, outs: seq<HoldOutcome>)
    requires |ids| == |lines| == |outs| && InRange(ids, |db.inventory|) && Distinct(ids)
    requires forall j | 0 <= j < |lines| ::
               && lines[j].qty > 0 && lines[j].productId == db.inventory[ids[j]].productId
               && Grants(db, ids[j], lines[j], outs[j], 2)
    ensures
      var items := HeldItems(db, ids, lines, outs, 0);
      && AllLive(items) && DistinctRows(items)
      && forall k | 0 <= k < |items| :: ItemOk(db, items[k])
  {
    var items := HeldItems(db, ids, lines, outs, 0);
    forall k | 0 <= k < |items|
      ensures ItemOk(db, items[k]) && items[k].inventoryId == ids[k]
      ensures items[k].status == Held || items[k].status == ProviderFailed
    {
      assert items[k] == HeldItem(db, ids[k], lines[k], outs[k]);
      assert Grants(db, ids[k], lines[k], outs[k], 2);
    }
  }

  /** The quantity the new items put on a row: that of the line whose row it is, or nothing. */
  lemma HeldQty(db: Db, lines: seq<Line>, ids: seq<nat>, outs: seq<HoldOutcome>, i: nat)
    requires |ids| == |lines| == |outs| && InRange(ids, |db.inventory|)
    requires AllLive(HeldItems(db, ids, lines, outs, 0)) && DistinctRows(HeldItems(db, ids, lines, outs, 0))
    ensures forall j | 0 <= j < |ids| && ids[j] == i ::
              QtyOn(HeldItems(db, ids, lines, outs, 0), i, Live) == lines[j].qty
    ensures (forall j | 0 <= j < |ids| :: ids[j] != i) ==> QtyOn(HeldItems(db, ids, lines, outs, 0), i, Live) == 0
  {
    var items := HeldItems(db, ids, lines, outs, 0);
    forall j | 0 <= j < |ids| ensures items[j].inventoryId == ids[j] && items[j].qty == lines[j].qty {
      assert items[j] == HeldItem(db, ids[0 + j], lines[0 + j], outs[0 + j]);
    }
    QtyOfRow(items, i, Live);
    forall j | 0 <= j < |ids| && ids[j] == i ensures QtyOn(items, i, Live) == lines[j].qty {
      assert items[j].inventoryId == i;
    }
  }

  /** A booked row is reserved by its weight times the new items' quantity on it. */
  lemma BookedRow(
    db: Db, after: seq<Inventory>, lines: seq<Line>, ids: seq<nat>, outs: seq<HoldOutcome>, i: nat)
    requires |ids| == |lines| == |outs| && InRange(ids, |db.inventory|)
    requires AllLive(HeldItems(db, ids, lines, outs, 0)) && DistinctRows(HeldItems(db, ids, lines, outs, 0))
    requires Rewritten(db.inventory, after, ids, BookedRows(db, ids, lines), 0) && i < |db.inventory|
    ensures after[i] ==
            db.inventory[i].Reserve(Weight(db, i) * QtyOn(HeldItems(db, ids, lines, outs, 0), i, Live))
  {
    HeldQty(db, lines, ids, outs, i);
    if j :| 0 <= j < |ids| && ids[j] == i {
      assert after[ids[j]] == BookedRows(db, ids, lines)[j];
    }
  }

  lemma BookedRowLedger(init: seq<Inventory>, db: Db, after: Db, res: Reservation, i: nat)
    requires SameRows(init, db) && LedgerHolds(init, db) && i < |init|
    requires |after.inventory| == |db.inventory| && after.providers == db.providers
    requires after.reservations == db.reservations + [res] && AllLive(res.items)
    requires after.inventory[i] == db.inventory[i].Reserve(Weight(db, i) * QtyOn(res.items, i, Live))
    ensures after.inventory[i].qtyReserved == init[i].qtyReserved + Expected(after, i)
    ensures StockBase(after, i) == StockBase(db, i)
  {
    LiveItemsOnly(res.items, i);
    TotalAppend(db.reservations, res, i, Live);
    TotalAppend(db.reservations, res, i, Freed);
    TotalAppend(db.reservations, res, i, Taken);
    assert after.IsInternal(i) == db.IsInternal(i);
  }

  lemma BookedCalls(db: Db, after: Db, res: Reservation)
    requires CallsOk(db) && after.calls == db.calls && after.reservations == db.reservations + [res]
    requires forall k | 0 <= k < |res.items| :: SideOf(res.items[k].status) == Live
    ensures CallsOk(after)
  {
    forall c: Call ensures after.calls[c] == if Settled(after, c) then 1 else 0 {
      assert db.calls[c] == if Settled(db, c) then 1 else 0;
      if c.reservationId == |db.reservations| {
        assert !Settled(after, c);
      } else {
        assert Settled(after, c) == Settled(db, c);
      }
    }
  }

  lemma BookedItems(db: Db, after: Db, res: Reservation)
    requires ItemsOk(db) && after.reservations == db.reservations + [res]
    requires DistinctRows(res.items) && forall k | 0 <= k < |res.items| :: ItemOk(db, res.items[k])
    requires |after.inventory| == |db.inventory| && after.providers == db.providers
    requires forall i | 0 <= i < |db.inventory| ::
               && after.inventory[i].productId == db.inventory[i].productId
               && after.inventory[i].providerId == db.inventory[i].providerId
    ensures ItemsOk(after)
  {
    forall r, k | 0 <= r < |after.reservations| && 0 <= k < |after.reservations[r].items|
      ensures ItemOk(after, after.reservations[r].items[k])
    {
      assert ItemOk(db, after.reservations[r].items[k]);
    }
    forall r | 0 <= r < |after.reservations| ensures DistinctRows(after.reservations[r].items) {
      if r < |db.reservations| {
        assert DistinctRows(db.reservations[r].items);
      }
    }
  }

  /** Adding a well-formed pending reservation, with its rows reserved, keeps the invariant. */
  lemma BookingKeepsInv(init: seq<Inventory>, db: Db, after: Db, res: Reservation)
    requires Inv(init, db) && after.reservations == db.reservations + [res]
    requires after.skus == db.skus && after.providers == db.providers
    requires after.orders == db.orders && after.calls == db.calls
    requires res.status == Pending && AllLive(res.items) && DistinctRows(res.items)
    requires forall k | 0 <= k < |res.items| :: ItemOk(db, res.items[k])
    requires |after.inventory| == |db.inventory|
    requires forall i | 0 <= i < |init| ::
               after.inventory[i] == db.inventory[i].Reserve(Weight(db, i) * QtyOn(res.items, i, Live))
    ensures Inv(init, after) && SameStock(db, after)
  {
    forall i | 0 <= i < |init|
      ensures after.inventory[i].qtyReserved == init[i].qtyReserved + Expected(after, i)
      ensures StockBase(after, i) == StockBase(db, i)
    {
      BookedRowLedger(init, db, after, res, i);
    }
    BookedItems(db, after, res);
    BookedCalls(db, after, res);
    assert StatusesAgree(res);
  }

  /** A committed `create` keeps the invariant, and no row's stock. */
  lemma CreateKeepsInv(
    init: seq<Inventory>, db: Db, userId: string, lines: seq<Line>, seen: seq<Option<Read>>, outs: seq<HoldOutcome>,
    expiresAt: int)
    requires Inv(init, db) && |seen| == |lines| == |outs| && ValidRequest(lines) && ReadsProducts(db, lines, seen)
    requires CreateTx(db, userId, lines, seen, outs, expiresAt).Ok?
    ensures
      var after := CreateTx(db, userId, lines, seen, outs, expiresAt).value;
      && Inv(init, after) && SameStock(db, after)
      && |after.reservations| == |db.reservations| + 1
      && after.reservations[..|db.reservations|] == db.reservations
      && after.reservations[|db.reservations|].status == Pending
      && AllLive(after.reservations[|db.reservations|].items)
      && forall i | 0 <= i < |init| ::
           after.inventory[i] == db.inventory[i].Reserve(
             Weight(db, i) * QtyOn(after.reservations[|db.reservations|].items, i, Live))
  {
    CreateEffect(db, userId, lines, seen, outs, expiresAt);
    var after := CreateTx(db, userId, lines, seen, outs, expiresAt).value;
    var ids := IdsOf(seen);
    forall j | 0 <= j < |lines|
      ensures lines[j].qty > 0 && lines[j].productId == db.inventory[ids[j]].productId
      ensures Grants(db, ids[j], lines[j], outs[j], 2)
    {
      assert lines[j] in lines;
      assert LineFits(db, lines[j], seen[j], outs[j]);
    }
    HeldItemsOk(db, lines, ids, outs);
    forall i | 0 <= i < |init|
      ensures after.inventory[i] ==
              db.inventory[i].Reserve(Weight(db, i) * QtyOn(HeldItems(db, ids, lines, outs, 0), i, Live))
    {
      BookedRow(db, after.inventory, lines, ids, outs, i);
    }
    BookingKeepsInv(init, db, after, Reservation(userId, Pending, expiresAt, HeldItems(db, ids, lines, outs, 0)));
  }

  // ----- sync -----

  /** A sync of provider `pid` asks for the stock of this row: it is the provider's, and its product has a SKU. */
  predicate Asked(db: Db, pid: int, row: nat)
    requires row < |db.inventory|
  {
    var productId := db.inventory[row].productId;
    db.inventory[row].providerId == pid && productId in db.skus && |db.skus[productId]| > 0
  }

  /** A successful sync of provider `pid` overwrites the stock of this row. */
  predicate Synced(db: Db, pid: int, stocks: seq<StockOutcome>, row: nat)
    requires |stocks| == |db.inventory| && row < |db.inventory|
  {
    Asked(db, pid, row) && stocks[row].Stock?
  }

  ghost predicate SyncedRow(db: Db, after: Db, pid: int, stocks: seq<StockOutcome>, now: int, row: nat)
    requires |stocks| == |db.inventory| == |after.inventory| && row < |db.inventory|
  {
    after.inventory[row] ==
      if Synced(db, pid, stocks, row)
      then db.inventory[row].(qtyAvailable := stocks[row].qty, lastSyncedAt := Some(now))
      else db.inventory[row]
  }

  /** What the loop leaves from row `k` of its list on: those rows synced, and all others as they were. */
  ghost predicate SyncedFrom(
    db: Db, after: Db, pid: nat, ids: seq<nat>, stocks: seq<StockOutcome>, now: int, k: nat)
    requires |stocks| == |db.inventory| && InRange(ids, |db.inventory|)
  {
    && after == db.(inventory := after.inventory) && |after.inventory| == |db.inventory|
    && (forall j | k <= j < |ids| :: SyncedRow(db, after, pid, stocks, now, ids[j]))
    && (forall i | 0 <= i < |db.inventory| && (forall j | k <= j < |ids| :: ids[j] != i) ::
          after.inventory[i] == db.inventory[i])
  }

  ghost predicate RaisesFrom(db: Db, pid: nat, ids: seq<nat>, stocks: seq<StockOutcome>, k: nat)
    requires |stocks| == |db.inventory| && InRange(ids, |db.inventory|)
  {
    exists j | k <= j < |ids| :: Asked(db, pid, ids[j]) && stocks[ids[j]].StockRaised?
  }

  lemma SyncedStep(
    db: Db, next: Db, after: Db, pid: nat, ids: seq<nat>, stocks: seq<StockOutcome>, now: int, k: nat)
    requires |stocks| == |db.inventory| && k < |ids| && InRange(ids, |db.inventory|) && Distinct(ids)
    requires next == db.(inventory := next.inventory) && |next.inventory| == |db.inventory|
    requires SyncedRow(db, next, pid, stocks, now, ids[k]) && !(Asked(db, pid, ids[k]) && stocks[ids[k]].StockRaised?)
    requires forall i | 0 <= i < |db.inventory| && i != ids[k] :: next.inventory[i] == db.inventory[i]
    ensures SyncedFrom(next, after, pid, ids, stocks, now, k + 1) ==> SyncedFrom(db, after, pid, ids, stocks, now, k)
    ensures RaisesFrom(next, pid, ids, stocks, k + 1) <==> RaisesFrom(db, pid, ids, stocks, k)
  {
    var id := ids[k];
    assert forall j | k < j < |ids| :: ids[j] != id;
    forall j | k < j < |ids|
      ensures Asked(next, pid, ids[j]) == Asked(db, pid, ids[j])
      ensures next.inventory[ids[j]] == db.inventory[ids[j]]
    {}
    if SyncedFrom(next, after, pid, ids, stocks, now, k + 1) {
      assert after.inventory[id] == next.inventory[id];
      forall j | k <= j < |ids| ensures SyncedRow(db, after, pid, stocks, now, ids[j]) {
        assert j > k ==> SyncedRow(next, after, pid, stocks, now, ids[j]);
      }
    }
  }

  lemma {:induction false} SyncFromEffect(
    db: Db, pid: nat, ids: seq<nat>, stocks: seq<StockOutcome>, now: int, report: SyncReport, k: nat)
    requires |stocks| == |db.inventory| && k <= |ids| && InRange(ids, |db.inventory|) && Distinct(ids)
    requires forall j | 0 <= j < |ids| :: db.inventory[ids[j]].providerId == pid
    ensures SyncFrom(db, ids, stocks, now, report, k).Err? <==> RaisesFrom(db, pid, ids, stocks, k)
    ensures SyncFrom(db, ids, stocks, now, report, k).Err? ==>
              SyncFrom(db, ids, stocks, now, report, k).error == ProviderRaised
    ensures SyncFrom(db, ids, stocks, now, report, k).Ok? ==>
              SyncedFrom(db, SyncFrom(db, ids, stocks, now, report, k).value.0, pid, ids, stocks, now, k)
    decreases |ids| - k
  {
    if k < |ids| {
      var i, row := ids[k], db.inventory[ids[k]];
      if HasSku(db, row) && stocks[i].StockRaised? {
        assert Asked(db, pid, ids[k]);
      } else {
        hide SyncedFrom, RaisesFrom;
        var next, mid := db, report;
        if HasSku(db, row) && stocks[i].StockError? {
          mid := report.(errors := report.errors + [db.skus[row.productId] + ": " + stocks[i].message]);
        } else if HasSku(db, row) {
          next := db.(inventory := db.inventory[i := row.(qtyAvailable := stocks[i].qty, lastSyncedAt := Some(now))]);
          mid := report.(updated := report.updated + 1);
        }
        SyncFromEffect(next, pid, ids, stocks, now, mid, k + 1);
        var rest := SyncFrom(next, ids, stocks, now, mid, k + 1);
        SyncedStep(db, next, if rest.Ok? then rest.value.0 else next, pid, ids, stocks, now, k);
      }
    }
  }

  /** A sync that commits overwrites exactly the rows it names, and writes no reserved unit. */
  lemma SyncEffect(db: Db, pid: int, stocks: seq<StockOutcome>, now: int)
    requires |stocks| == |db.inventory| && SyncTx(db, pid, stocks, now).Ok?
    ensures
      var after := SyncTx(db, pid, stocks, now).value.0;
      && 0 <= pid < |db.providers| && db.providers[pid].isActive
      && after == db.(inventory := after.inventory) && |after.inventory| == |db.inventory|
      && forall i | 0 <= i < |db.inventory| ::
           if db.providers[pid].kind.Internal? then after.inventory[i] == db.inventory[i]
           else SyncedRow(db, after, pid, stocks, now, i)
  {
    if 0 <= pid < |db.providers| && db.providers[pid].isActive && db.providers[pid].kind.External? {
      var ids := GetAllByProvider(db.inventory, pid);
      assert forall j | 0 <= j < |ids| :: ids[j] in ids;
      SyncFromEffect(db, pid, ids, stocks, now, SyncReport(0, []), 0);
      var after := SyncTx(db, pid, stocks, now).value.0;
      forall i | 0 <= i < |db.inventory| ensures SyncedRow(db, after, pid, stocks, now, i) {
        if db.inventory[i].providerId == pid {
          assert i in ids;
          var j :| 0 <= j < |ids| && ids[j] == i;
          assert SyncedRow(db, after, pid, stocks, now, ids[j]);
        } else {
          assert i !in ids;
          assert forall j | 0 <= j < |ids| :: ids[j] != i;
        }
      }
    } else if 0 <= pid < |db.providers| && db.providers[pid].kind.Internal? {
      assert db == db.(inventory := db.inventory);
    }
  }

  /** The sync counts this row as updated, or as an error. */
  predicate Hit(db: Db, pid: int, stocks: seq<StockOutcome>, row: nat, failed: bool)
    requires |stocks| == |db.inventory| && row < |db.inventory|
  {
    Asked(db, pid, row) && if failed then stocks[row].StockError? else stocks[row].Stock?
  }

  /** The rows of `ids`, from the `k`-th on, whose stock check the sync counts as updated, or as an error. */
  function Checked(db: Db, pid: int, ids: seq<nat>, stocks: seq<StockOutcome>, k: nat, failed: bool): set<nat>
    requires |stocks| == |db.inventory| && forall j | 0 <= j < |ids| :: ids[j] < |db.inventory|
  {
    set j | k <= j < |ids| && Hit(db, pid, stocks, ids[j], failed) :: ids[j]
  }

  lemma CheckedStep(db: Db, pid: int, ids: seq<nat>, stocks: seq<StockOutcome>, k: nat, failed: bool)
    requires |stocks| == |db.inventory| && InRange(ids, |db.inventory|) && Distinct(ids) && k < |ids|
    ensures |Checked(db, pid, ids, stocks, k, failed)| ==
            |Checked(db, pid, ids, stocks, k + 1, failed)| + if Hit(db, pid, stocks, ids[k], failed) then 1 else 0
  {
    hide Hit;
    var hit := Hit(db, pid, stocks, ids[k], failed);
    var all, rest := Checked(db, pid, ids, stocks, k, failed), Checked(db, pid, ids, stocks, k + 1, failed);
    forall i ensures i in all <==> i in rest || (hit && i == ids[k]) {
      if i in all {
        var j :| k <= j < |ids| && Hit(db, pid, stocks, ids[j], failed) && ids[j] == i;
      }
    }
    assert ids[k] !in rest;
    assert all == if hit then rest + {ids[k]} else rest;
  }

  /** What the sync reports of one row: a message, if it asked for the stock and the provider failed. */
  function Message(db: Db, pid: int, stocks: seq<StockOutcome>, row: nat): seq<string>
    requires |stocks| == |db.inventory| && row < |db.inventory|
  {
    if Asked(db, pid, row) && stocks[row].StockError?
    then [db.skus[db.inventory[row].productId] + ": " + stocks[row].message] else []
  }

  /** The messages of the rows `ids`, from the `k`-th on. */
  function MessagesFrom(db: Db, pid: int, ids: seq<nat>, stocks: seq<StockOutcome>, k: nat): seq<string>
    requires |stocks| == |db.inventory| && k <= |ids| && forall j | 0 <= j < |ids| :: ids[j] < |db.inventory|
    decreases |ids| - k
  {
    if k == |ids| then [] else Message(db, pid, stocks, ids[k]) + MessagesFrom(db, pid, ids, stocks, k + 1)
  }

  lemma {:induction false} MessagesSnoc(db: Db, pid: int, ids: seq<nat>, i: nat, stocks: seq<StockOutcome>, k: nat)
    requires |stocks| == |db.inventory| && k <= |ids| && i < |db.inventory| && InRange(ids, |db.inventory|)
    ensures MessagesFrom(db, pid, ids + [i], stocks, k) ==
            MessagesFrom(db, pid, ids, stocks, k) + Message(db, pid, stocks, i)
    decreases |ids| - k
  {
    hide Message;
    if k < |ids| {
      MessagesSnoc(db, pid, ids, i, stocks, k + 1);
    } else {
      assert MessagesFrom(db, pid, ids + [i], stocks, k + 1) == [];
    }
  }

  /** The messages of the first `n` rows of the inventory, in id order. */
  function Messages(db: Db, pid: int, stocks: seq<StockOutcome>, n: nat): seq<string>
    requires n <= |db.inventory| == |stocks|
  {
    if n == 0 then [] else Messages(db, pid, stocks, n - 1) + Message(db, pid, stocks, n - 1)
  }

  lemma {:induction false} MessagesOfProvider(db: Db, pid: nat, stocks: seq<StockOutcome>, n: nat)
    requires n <= |db.inventory| == |stocks|
    ensures InRange(GetAllByProvider(db.inventory[..n], pid), n)
    ensures MessagesFrom(db, pid, GetAllByProvider(db.inventory[..n], pid), stocks, 0) == Messages(db, pid, stocks, n)
  {
    hide MessagesFrom;
    var ids := GetAllByProvider(db.inventory[..n], pid);
    assert forall j | 0 <= j < |ids| :: ids[j] in ids;
    if n > 0 {
      MessagesOfProvider(db, pid, stocks, n - 1);
      var front := GetAllByProvider(db.inventory[..n - 1], pid);
      assert db.inventory[..n][..n - 1] == db.inventory[..n - 1];
      if db.inventory[n - 1].providerId == pid {
        MessagesSnoc(db, pid, front, n - 1, stocks, 0);
      }
    } else {
      NoMessages(db, pid, stocks);
    }
  }

  lemma NoMessages(db: Db, pid: int, stocks: seq<StockOutcome>)
    requires |stocks| == |db.inventory|
    ensures MessagesFrom(db, pid, [], stocks, 0) == []
  {}

  lemma SameMessages(db: Db, next: Db, pid: int, ids: seq<nat>, stocks: seq<StockOutcome>, k: nat)
    requires |stocks| == |db.inventory| == |next.inventory| && k <= |ids| && InRange(ids, |db.inventory|)
    requires next.skus == db.skus
    requires forall i | 0 <= i < |db.inventory| ::
               && next.inventory[i].productId == db.inventory[i].productId
               && next.inventory[i].providerId == db.inventory[i].providerId
    ensures MessagesFrom(next, pid, ids, stocks, k) == MessagesFrom(db, pid, ids, stocks, k)
    ensures forall failed :: Checked(next, pid, ids, stocks, k, failed) == Checked(db, pid, ids, stocks, k, failed)
    decreases |ids| - k
  {
    forall failed ensures Checked(next, pid, ids, stocks, k, failed) == Checked(db, pid, ids, stocks, k, failed) {
      assert forall j | 0 <= j < |ids| ::
          Hit(next, pid, stocks, ids[j], failed) == Hit(db, pid, stocks, ids[j], failed);
    }
    if k < |ids| {
      SameMessages(db, next, pid, ids, stocks, k + 1);
    }
  }

  /** What the loop reports from row `k` of its list on. */
  ghost predicate ReportsFrom(
    db: Db, pid: int, ids: seq<nat>, stocks: seq<StockOutcome>, before: SyncReport, after: SyncReport, k: nat)
    requires |stocks| == |db.inventory| && k <= |ids| && InRange(ids, |db.inventory|)
  {
    && after.updated == before.updated + |Checked(db, pid, ids, stocks, k, false)|
    && after.errors == before.errors + MessagesFrom(db, pid, ids, stocks, k)
  }

  lemma ReportsStep(
    db: Db, next: Db, pid: nat, ids: seq<nat>, stocks: seq<StockOutcome>, before: SyncReport, mid: SyncReport,
    after: SyncReport, k: nat)
    requires |stocks| == |db.inventory| == |next.inventory| && k < |ids|
    requires InRange(ids, |db.inventory|) && Distinct(ids) && next.skus == db.skus
    requires forall i | 0 <= i < |db.inventory| ::
               && next.inventory[i].productId == db.inventory[i].productId
               && next.inventory[i].providerId == db.inventory[i].providerId
    requires mid.updated == before.updated + if Hit(db, pid, stocks, ids[k], false) then 1 else 0
    requires mid.errors == before.errors + Message(db, pid, stocks, ids[k])
    requires ReportsFrom(next, pid, ids, stocks, mid, after, k + 1)
    ensures ReportsFrom(db, pid, ids, stocks, before, after, k)
  {
    hide Message, Hit;
    CheckedStep(db, pid, ids, stocks, k, false);
    SameMessages(db, next, pid, ids, stocks, k + 1);
  }

  lemma {:induction false} SyncFromReports(
    db: Db, pid: nat, ids: seq<nat>, stocks: seq<StockOutcome>, now: int, report: SyncReport, k: nat)
    requires |stocks| == |db.inventory| && k <= |ids| && InRange(ids, |db.inventory|) && Distinct(ids)
    requires forall j | 0 <= j < |ids| :: db.inventory[ids[j]].providerId == pid
    requires SyncFrom(db, ids, stocks, now, report, k).Ok?
    ensures ReportsFrom(db, pid, ids, stocks, report, SyncFrom(db, ids, stocks, now, report, k).value.1, k)
    decreases |ids| - k
  {
    if k == |ids| {
      assert Checked(db, pid, ids, stocks, k, false) == {};
    } else {
      hide ReportsFrom;
      var i, row := ids[k], db.inventory[ids[k]];
      var done := SyncFrom(db, ids, stocks, now, report, k).value.1;
      var next, mid := db, report;
      if HasSku(db, row) && stocks[i].StockError? {
        mid := report.(errors := report.errors + [db.skus[row.productId] + ": " + stocks[i].message]);
      } else if HasSku(db, row) {
        next := db.(inventory := db.inventory[i := row.(qtyAvailable := stocks[i].qty, lastSyncedAt := Some(now))]);
        mid := report.(updated := report.updated + 1);
      }
      SyncFromReports(next, pid, ids, stocks, now, mid, k + 1);
      ReportsStep(db, next, pid, ids, stocks, report, mid, done, k);
    }
  }

  lemma CheckedOfProvider(db: Db, pid: nat, stocks: seq<StockOutcome>)
    requires |stocks| == |db.inventory|
    ensures InRange(GetAllByProvider(db.inventory, pid), |db.inventory|)
    ensures Checked(db, pid, GetAllByProvider(db.inventory, pid), stocks, 0, false) ==
            set i | 0 <= i < |db.inventory| && Synced(db, pid, stocks, i)
  {
    hide Asked;
    var ids := GetAllByProvider(db.inventory, pid);
    assert forall j | 0 <= j < |ids| :: ids[j] in ids;
    forall i
      ensures i in Checked(db, pid, ids, stocks, 0, false) <==> 0 <= i < |db.inventory| && Synced(db, pid, stocks, i)
    {
      if 0 <= i < |db.inventory| && Synced(db, pid, stocks, i) {
        AskedIsOwn(db, pid, i);
        assert i in ids;
        var j :| 0 <= j < |ids| && ids[j] == i;
        assert Hit(db, pid, stocks, ids[j], false);
      }
    }
  }

  lemma AskedIsOwn(db: Db, pid: int, i: nat)
    requires i < |db.inventory| && Asked(db, pid, i)
    ensures db.inventory[i].providerId == pid
  {}

  /** The report counts the overwritten rows, and has the messages of the rows whose provider failed, in id order. */
  lemma SyncReports(db: Db, pid: int, stocks: seq<StockOutcome>, now: int)
    requires |stocks| == |db.inventory| && SyncTx(db, pid, stocks, now).Ok?
    requires 0 <= pid < |db.providers| && db.providers[pid].kind.External?
    ensures
      var report := SyncTx(db, pid, stocks, now).value.1;
      && report.updated == |set i | 0 <= i < |db.inventory| && Synced(db, pid, stocks, i)|
      && report.errors == Messages(db, pid, stocks, |db.inventory|)
  {
    hide Checked, MessagesFrom, Messages, Asked, Synced, SyncFrom;
    var ids := GetAllByProvider(db.inventory, pid);
    assert forall j | 0 <= j < |ids| :: ids[j] in ids;
    SyncFromReports(db, pid, ids, stocks, now, SyncReport(0, []), 0);
    MessagesOfProvider(db, pid, stocks, |db.inventory|);
    assert db.inventory[..|db.inventory|] == db.inventory;
    CheckedOfProvider(db, pid, stocks);
  }

  lemma SyncRaises(db: Db, pid: nat, stocks: seq<StockOutcome>, now: int)
    requires |stocks| == |db.inventory| && pid < |db.providers|
    requires db.providers[pid].isActive && db.providers[pid].kind.External?
    ensures SyncTx(db, pid, stocks, now).Err? <==>
            exists i | 0 <= i < |db.inventory| :: Asked(db, pid, i) && stocks[i].StockRaised?
    ensures SyncTx(db, pid, stocks, now).Err? ==> SyncTx(db, pid, stocks, now).error == ProviderRaised
  {
    hide Asked, SyncFrom;
    var ids := GetAllByProvider(db.inventory, pid);
    assert forall j | 0 <= j < |ids| :: ids[j] in ids;
    SyncFromEffect(db, pid, ids, stocks, now, SyncReport(0, []), 0);
    if i :| 0 <= i < |db.inventory| && Asked(db, pid, i) && stocks[i].StockRaised? {
      AskedIsOwn(db, pid, i);
      assert i in ids;
      var j :| 0 <= j < |ids| && ids[j] == i;
    }
  }

  /** A sync, completely: which exception it raises, or what it writes and reports. A provider error on one row leaves
      the others to be synced; an unknown exception on any row ends it all. A row whose product has no SKU, or an
      empty one, is left alone and not reported. */
  lemma SyncOutcome(db: Db, pid: int, stocks: seq<StockOutcome>, now: int)
    requires |stocks| == |db.inventory|
    ensures
      match SyncTx(db, pid, stocks, now)
      case Err(e) =>
        if !(0 <= pid < |db.providers|) then e == ProviderNotFound(pid)
        else if !db.providers[pid].isActive then e == ProviderInactive(pid)
        else
          && e == ProviderRaised && db.providers[pid].kind.External?
          && exists i | 0 <= i < |db.inventory| :: Asked(db, pid, i) && stocks[i].StockRaised?
      case Ok((after, report)) =>
        && 0 <= pid < |db.providers| && db.providers[pid].isActive
        && after == db.(inventory := after.inventory) && |after.inventory| == |db.inventory|
        && if db.providers[pid].kind.Internal? then after == db && report.updated == 0 && report.errors == []
           else
             && (forall i | 0 <= i < |db.inventory| && Asked(db, pid, i) :: !stocks[i].StockRaised?)
             && (forall i | 0 <= i < |db.inventory| ::
                   after.inventory[i] ==
                     if db.inventory[i].providerId == pid && db.inventory[i].productId in db.skus
                        && db.skus[db.inventory[i].productId] != "" && stocks[i].Stock?
                     then db.inventory[i].(qtyAvailable := stocks[i].qty, lastSyncedAt := Some(now))
                     else db.inventory[i])
             && report.updated == (|set i | 0 <= i < |db.inventory| && Synced(db, pid, stocks, i)|)
             && report.errors == Messages(db, pid, stocks, |db.inventory|)
  {
    if 0 <= pid < |db.providers| && db.providers[pid].isActive && db.providers[pid].kind.External? {
      SyncRaises(db, pid, stocks, now);
      if SyncTx(db, pid, stocks, now).Ok? {
        SyncEffect(db, pid, stocks, now);
        SyncReports(db, pid, stocks, now);
        var after := SyncTx(db, pid, stocks, now).value.0;
        assert forall i | 0 <= i < |db.inventory| :: SyncedRow(db, after, pid, stocks, now, i);
      }
    }
  }

  lemma SyncKeepsInv(init: seq<Inventory>, db: Db, pid: int, stocks: seq<StockOutcome>, now: int)
    requires Inv(init, db) && |stocks| == |db.inventory| && SyncTx(db, pid, stocks, now).Ok?
    ensures Inv(init, SyncTx(db, pid, stocks, now).value.0)
  {
    SyncEffect(db, pid, stocks, now);
    var after := SyncTx(db, pid, stocks, now).value.0;
    forall i | 0 <= i < |init|
      ensures after.inventory[i].productId == init[i].productId && after.inventory[i].providerId == init[i].providerId
      ensures after.inventory[i].qtyReserved == init[i].qtyReserved + Expected(after, i)
    {
      assert SyncedRow(db, after, pid, stocks, now, i) || after.inventory[i] == db.inventory[i];
      assert after.IsInternal(i) == db.IsInternal(i);
    }
    forall c: Call ensures Settled(after, c) == Settled(db, c) {}
    forall r, k | 0 <= r < |after.reservations| && 0 <= k < |after.reservations[r].items|
      ensures ItemOk(after, after.reservations[r].items[k])
    {
      assert ItemOk(db, db.reservations[r].items[k]);
      var i := db.reservations[r].items[k].inventoryId;
      assert SyncedRow(db, after, pid, stocks, now, i) || after.inventory[i] == db.inventory[i];
    }
    assert forall r | 0 <= r < |after.reservations| :: DistinctRows(after.reservations[r].items);
  }

  // ----- Any request -----

  /** How a reservation's record may change: not at all, or once, from `pending` to a final status. */
  ghost predicate Evolves(before: Reservation, after: Reservation) {
    after == before ||
    (before.status == Pending && after.status != Pending && after == Closed(before, after.status))
  }

  /** A request that overwrites this row's stock with a synced figure. */
  ghost predicate SyncsRow(db: Db, op: Op, row: nat)
    requires ValidOp(db, op) && row < |db.inventory|
  {
    op.Sync? && Attempt(db, op).Ok? && db.providers[op.pid].kind.External? && Synced(db, op.pid, op.stocks, row)
  }

  /** The stock figure a synced row gets. */
  function SyncedQty(op: Op, row: nat): int
    requires op.Sync? && row < |op.stocks| && op.stocks[row].Stock?
  {
    op.stocks[row].qty
  }

  /** Everything the runs need to know of one request. */
  ghost predicate StepFacts(db: Db, op: Op, after: Db)
    requires ValidOp(db, op)
  {
    && after.providers == db.providers && |after.inventory| == |db.inventory|
    && |db.reservations| <= |after.reservations|
    && (forall r | 0 <= r < |db.reservations| :: Evolves(db.reservations[r], after.reservations[r]))
    && (forall i | 0 <= i < |db.inventory| ::
          if SyncsRow(db, op, i) then StockBase(after, i) == SyncedQty(op, i) + TotalOn(after.reservations, i, Taken)
          else StockBase(after, i) == StockBase(db, i))
    && (forall r | 0 <= r < |db.reservations| && after.reservations[r] != db.reservations[r] ::
          ClosedBy(db, op, r, after.reservations[r].status))
  }

  /** Which request closes a reservation, and at what time. */
  ghost predicate ClosedBy(db: Db, op: Op, r: nat, status: Status)
    requires r < |db.reservations|
  {
    match op
    case Confirm(rid, now, _) => rid == r && status == Confirmed && now <= db.reservations[r].expiresAt
    case Cancel(rid, _) => rid == r && status == Cancelled
    case Sweep(now, batch, _) => r in batch && status == Expired && db.reservations[r].expiresAt < now
    case _ => false
  }

  lemma CreateStep(init: seq<Inventory>, db: Db, op: Op)
    requires Inv(init, db) && ValidOp(db, op) && op.Create?
    ensures Inv(init, Apply(db, op)) && StepFacts(db, op, Apply(db, op))
  {
    if Attempt(db, op).Ok? {
      CreateKeepsInv(init, db, op.userId, op.lines, op.seen, op.holds, op.expiresAt);
      var after := Apply(db, op);
      assert forall r | 0 <= r < |db.reservations| ::
          after.reservations[..|db.reservations|][r] == after.reservations[r];
    }
  }

  /** The facts of a step that closes one pending reservation. */
  lemma ClosingFacts(db: Db, op: Op, after: Db, r: nat, status: Status)
    requires ValidOp(db, op) && !op.Sync? && SameStock(db, after)
    requires r < |db.reservations| && db.reservations[r].status == Pending && status != Pending
    requires after.reservations == db.reservations[r := Closed(db.reservations[r], status)]
    requires ClosedBy(db, op, r, status)
    ensures StepFacts(db, op, after)
  {}

  lemma IdleFacts(db: Db, op: Op)
    requires ValidOp(db, op) && !op.Sync?
    ensures StepFacts(db, op, db)
  {}

  lemma ConfirmStep(init: seq<Inventory>, db: Db, op: Op)
    requires Inv(init, db) && ValidOp(db, op) && op.Confirm?
    ensures Inv(init, Apply(db, op)) && StepFacts(db, op, Apply(db, op))
  {
    ConfirmEffect(init, db, op.rid, op.now, op.answers);
    if Attempt(db, op).Ok? {
      ClosingFacts(db, op, Apply(db, op), op.rid, Confirmed);
    } else {
      IdleFacts(db, op);
    }
  }

  lemma CancelStep(init: seq<Inventory>, db: Db, op: Op)
    requires Inv(init, db) && ValidOp(db, op) && op.Cancel?
    ensures Inv(init, Apply(db, op)) && StepFacts(db, op, Apply(db, op))
  {
    if 0 <= op.rid < |db.reservations| && db.reservations[op.rid].status == Pending {
      CloseEffect(init, db, op.rid, Cancelled);
      ClosingFacts(db, op, Apply(db, op), op.rid, Cancelled);
    } else {
      IdleFacts(db, op);
    }
  }

  lemma SweepStep(init: seq<Inventory>, db: Db, op: Op)
    requires Inv(init, db) && ValidOp(db, op) && op.Sweep?
    ensures Inv(init, Apply(db, op)) && StepFacts(db, op, Apply(db, op))
  {
    assert PendingFrom(db, op.batch, 0) by {
      assert forall b | 0 <= b < |op.batch| :: IsExpiredPending(db, op.now, op.batch[b]);
    }
    SweepEffect(init, db, op.batch);
    var after := Apply(db, op);
    forall r | 0 <= r < |db.reservations|
      ensures Evolves(db.reservations[r], after.reservations[r])
      ensures after.reservations[r] != db.reservations[r] ==> ClosedBy(db, op, r, after.reservations[r].status)
    {
      SweptRecord(db, op, r);
    }
  }

  lemma SweptRecord(db: Db, op: Op, r: nat)
    requires op.Sweep? && SweepsExpired(db, op.now, op.batch) && r < |db.reservations|
    ensures
      var swept := Swept(db.reservations, IdsFrom(op.batch, 0))[r];
      && Evolves(db.reservations[r], swept)
      && (swept != db.reservations[r] ==> ClosedBy(db, op, r, swept.status))
  {
    if r in IdsFrom(op.batch, 0) {
      var b :| 0 <= b < |op.batch| && op.batch[b] == r;
      assert IsExpiredPending(db, op.now, op.batch[b]);
    }
  }

  lemma SyncStep(init: seq<Inventory>, db: Db, op: Op)
    requires Inv(init, db) && ValidOp(db, op) && op.Sync?
    ensures Inv(init, Apply(db, op)) && StepFacts(db, op, Apply(db, op))
  {
    if Attempt(db, op).Ok? {
      SyncEffect(db, op.pid, op.stocks, op.now);
      SyncKeepsInv(init, db, op.pid, op.stocks, op.now);
      var after := Apply(db, op);
      forall i | 0 <= i < |db.inventory|
        ensures if SyncsRow(db, op, i)
                then StockBase(after, i) == SyncedQty(op, i) + TotalOn(after.reservations, i, Taken)
                else StockBase(after, i) == StockBase(db, i)
      {
        assert db.providers[op.pid].kind.External? ==> SyncedRow(db, after, op.pid, op.stocks, op.now, i);
      }
    }
  }

  /** Every request keeps the invariant, whatever the world answers. */
  lemma ApplyKeepsInv(init: seq<Inventory>, db: Db, op: Op)
    requires Inv(init, db) && ValidOp(db, op)
    ensures Inv(init, Apply(db, op)) && StepFacts(db, op, Apply(db, op))
  {
    match op
    case Create(_, _, _, _, _) => CreateStep(init, db, op);
    case Confirm(_, _, _) => ConfirmStep(init, db, op);
    case Cancel(_, _) => CancelStep(init, db, op);
    case Sweep(_, _, _) => SweepStep(init, db, op);
    case Sync(_, _, _) => SyncStep(init, db, op);
  }
}
