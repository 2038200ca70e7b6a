/** Whole settling transactions: confirm, cancel and the sweep, from a state where
    statuses, orders and books agree. */
module Settlement {
  import opened Tables
  import opened Queries
  import opened Transactions
  import opened Ledger

  // ----- The invariant between transactions -----

  /** The one status of every item of a reservation that has left `pending`. */
  function SettledAs(status: Status): ItemStatus {
    if status == Confirmed then ItemConfirmed else Released
  }

  ghost predicate StatusesAgree(res: Reservation) {
    forall k | 0 <= k < |res.items| ::
      if res.status == Pending then res.items[k].status == Held || res.items[k].status == ProviderFailed
      else res.items[k].status == SettledAs(res.status)
  }

  ghost predicate OrdersAgree(db: Db) {
    && (forall r: nat :: CountOrders(db.orders, r) ==
          if r < |db.reservations| && db.reservations[r].status == Confirmed then 1 else 0)
    && (forall o | 0 <= o < |db.orders| ::
          && db.orders[o].reservationId < |db.reservations|
          && db.orders[o].userId == db.reservations[db.orders[o].reservationId].userId)
  }

  ghost predicate Inv(init: seq<Inventory>, db: Db) {
    && Books(init, db)
    && (forall r | 0 <= r < |db.reservations| :: StatusesAgree(db.reservations[r]))
    && OrdersAgree(db)
  }

  // ----- The books leave the counters no freedom -----

  /** Nothing but reservations, orders, calls and counters differs, and no stock came or went unsold. */
  ghost predicate SameStock(db: Db, after: Db) {
    && after.skus == db.skus && after.providers == db.providers
    && |after.inventory| == |db.inventory|
    && (forall i | 0 <= i < |db.inventory| ::
          && StockBase(after, i) == StockBase(db, i)
          && after.inventory[i].lastSyncedAt == db.inventory[i].lastSyncedAt)
  }

  /** Two states with the same books, reservations and orders are the same state. */
  lemma BooksDetermineCounters(init: seq<Inventory>, a: Db, b: Db)
    requires Books(init, a) && Books(init, b) && SameStock(a, b)
    requires a.reservations == b.reservations && a.orders == b.orders
    ensures a == b
  {
    forall i | 0 <= i < |init| ensures a.inventory[i] == b.inventory[i] {
      assert a.IsInternal(i) == b.IsInternal(i);
      assert Expected(a, i) == Expected(b, i);
      assert StockBase(a, i) == StockBase(b, i);
    }
    assert a.inventory == b.inventory;
    forall c: Call ensures a.calls[c] == b.calls[c] {
      assert Settled(a, c) == Settled(b, c);
      assert a.calls[c] == if Settled(a, c) then 1 else 0;
      assert b.calls[c] == if Settled(b, c) then 1 else 0;
    }
    assert a.calls == b.calls;
  }

  lemma SameStockTransitive(a: Db, b: Db, c: Db)
    requires SameStock(a, b) && SameStock(b, c)
    ensures SameStock(a, c)
  {
    forall i | 0 <= i < |a.inventory|
      ensures StockBase(c, i) == StockBase(a, i) && c.inventory[i].lastSyncedAt == a.inventory[i].lastSyncedAt
    {
      assert StockBase(b, i) == StockBase(a, i);
    }
  }

  // ----- Settling a whole reservation -----

  /** `items` with everything from `k` on marked `status`. */
  function Marked(items: seq<Item>, k: nat, status: ItemStatus): (r: seq<Item>)
    ensures |r| == |items|
  {
    seq(|items|, j requires 0 <= j < |items| => if j < k then items[j] else items[j].(status := status))
  }

  lemma MarkedStep(items: seq<Item>, k: nat, status: ItemStatus)
    requires k < |items|
    ensures Marked(items[k := items[k].(status := status)], k + 1, status) == Marked(items, k, status)
    ensures Marked(items, |items|, status) == items
  {}

  function WithItems(db: Db, r: nat, items: seq<Item>): seq<Reservation>
    requires r < |db.reservations|
  {
    db.reservations[r := db.reservations[r].(items := items)]
  }

  ghost predicate LiveFrom(db: Db, r: nat, k: nat)
    requires r < |db.reservations|
  {
    forall j | k <= j < |db.reservations[r].items| :: SideOf(db.reservations[r].items[j].status) == Live
  }

  lemma SettledOne(db: Db, after: Db, r: nat, k: nat, status: ItemStatus)
    requires db.HasItem(r, k) && db.ItemAt(r, k).inventoryId < |db.inventory| && Settles(db, after, r, k, status)
    requires forall i | 0 <= i < |db.inventory| :: StockBase(after, i) == StockBase(db, i)
    ensures SameStock(db, after) && after.orders == db.orders
    ensures after.reservations ==
            WithItems(db, r, db.reservations[r].items[k := db.reservations[r].items[k].(status := status)])
  {}

  lemma LiveAfterOne(db: Db, next: Db, r: nat, k: nat, status: ItemStatus)
    requires db.HasItem(r, k) && LiveFrom(db, r, k)
    requires next.reservations ==
             WithItems(db, r, db.reservations[r].items[k := db.reservations[r].items[k].(status := status)])
    ensures |next.reservations| == |db.reservations| && LiveFrom(next, r, k + 1)
    ensures |next.reservations[r].items| == |db.reservations[r].items|
    ensures WithItems(next, r, Marked(next.reservations[r].items, k + 1, status))
         == WithItems(db, r, Marked(db.reservations[r].items, k, status))
  {
    MarkedStep(db.reservations[r].items, k, status);
  }

  /** `after` is `db` with the items of `r` from `k` on settled as `status`, and the books kept. */
  ghost predicate SettledFrom(init: seq<Inventory>, db: Db, after: Db, r: nat, k: nat, status: ItemStatus)
    requires r < |db.reservations|
  {
    && Books(init, after) && SameStock(db, after) && after.orders == db.orders
    && after.reservations == WithItems(db, r, Marked(db.reservations[r].items, k, status))
  }

  lemma SettledFromStep(init: seq<Inventory>, db: Db, next: Db, after: Db, r: nat, k: nat, status: ItemStatus)
    requires db.HasItem(r, k) && LiveFrom(db, r, k) && SameStock(db, next) && next.orders == db.orders
    requires next.reservations ==
             WithItems(db, r, db.reservations[r].items[k := db.reservations[r].items[k].(status := status)])
    requires SettledFrom(init, next, after, r, k + 1, status)
    ensures SettledFrom(init, db, after, r, k, status)
  {
    LiveAfterOne(db, next, r, k, status);
    SameStockTransitive(db, next, after);
  }

  lemma SettledFromEnd(init: seq<Inventory>, db: Db, r: nat, status: ItemStatus)
    requires Books(init, db) && r < |db.reservations|
    ensures SettledFrom(init, db, db, r, |db.reservations[r].items|, status)
  {
    assert Marked(db.reservations[r].items, |db.reservations[r].items|, status) == db.reservations[r].items;
  }

  /** One released item, as the loop needs it. */
  lemma ReleaseOneEffect(init: seq<Inventory>, db: Db, r: nat, k: nat) returns (next: Db)
    requires Books(init, db) && db.HasItem(r, k) && LiveFrom(db, r, k)
    ensures ReleaseItem(db, r, k) == Ok(next)
    ensures Books(init, next) && SameStock(db, next) && next.orders == db.orders
    ensures next.reservations ==
            WithItems(db, r, db.reservations[r].items[k := db.reservations[r].items[k].(status := Released)])
  {
    ReleaseItemSettles(init, db, r, k);
    next := ReleaseItem(db, r, k).value;
    SettledOne(db, next, r, k, Released);
  }

  lemma {:induction false} ReleaseFromEffect(init: seq<Inventory>, db: Db, r: nat, n: nat, k: nat) returns (after: Db)
    requires Books(init, db) && r < |db.reservations| && n == |db.reservations[r].items| && k <= n && LiveFrom(db, r, k)
    ensures ReleaseFrom(db, r, n, k) == Ok(after)
    ensures SettledFrom(init, db, after, r, k, Released)
    decreases n - k
  {
    hide Books, SameStock, SettledFrom, ReleaseItem;
    if k < n {
      var next := ReleaseOneEffect(init, db, r, k);
      LiveAfterOne(db, next, r, k, Released);
      after := ReleaseFromEffect(init, next, r, n, k + 1);
      SettledFromStep(init, db, next, after, r, k, Released);
    } else {
      after := db;
      SettledFromEnd(init, db, r, Released);
    }
  }

  /** The item whose remote confirmation raises, if any: the only way `confirm` fails once its tests passed. */
  predicate AnswerRaises(items: seq<Item>, outs: seq<ConfirmOutcome>, k: nat)
    requires |outs| == |items|
  {
    exists j | k <= j < |items| :: items[j].holdRef.Some? && outs[j].ConfirmRaised?
  }

  lemma RaisesStep(items: seq<Item>, outs: seq<ConfirmOutcome>, k: nat, status: ItemStatus)
    requires |outs| == |items| && k < |items|
    ensures AnswerRaises(items, outs, k) <==>
            (items[k].holdRef.Some? && outs[k].ConfirmRaised?)
            || AnswerRaises(items[k := items[k].(status := status)], outs, k + 1)
  {
    var next := items[k := items[k].(status := status)];
    assert forall j | k < j < |items| :: next[j] == items[j];
  }

  /** One confirmed item, as the loop needs it. */
  lemma ConfirmOneEffect(init: seq<Inventory>, db: Db, r: nat, k: nat, out: ConfirmOutcome)
    requires Books(init, db) && db.HasItem(r, k) && LiveFrom(db, r, k)
    ensures ConfirmItem(db, r, k, out).Err? <==> db.ItemAt(r, k).holdRef.Some? && out.ConfirmRaised?
    ensures ConfirmItem(db, r, k, out).Err? ==> ConfirmItem(db, r, k, out).error == ProviderRaised
    ensures ConfirmItem(db, r, k, out).Ok? ==>
              var next := ConfirmItem(db, r, k, out).value;
              && Books(init, next) && SameStock(db, next) && next.orders == db.orders
              && next.reservations ==
                 WithItems(db, r, db.reservations[r].items[k := db.reservations[r].items[k].(status := ItemConfirmed)])
  {
    ConfirmItemSettles(init, db, r, k, out);
    if ConfirmItem(db, r, k, out).Ok? {
      SettledOne(db, ConfirmItem(db, r, k, out).value, r, k, ItemConfirmed);
    }
  }

  lemma {:induction false} ConfirmFromEffect(
    init: seq<Inventory>, db: Db, r: nat, outs: seq<ConfirmOutcome>, k: nat)
    requires Books(init, db) && r < |db.reservations|
    requires |outs| == |db.reservations[r].items| && k <= |outs| && LiveFrom(db, r, k)
    ensures ConfirmFrom(db, r, outs, k).Err? <==> AnswerRaises(db.reservations[r].items, outs, k)
    ensures ConfirmFrom(db, r, outs, k).Err? ==> ConfirmFrom(db, r, outs, k).error == ProviderRaised
    ensures ConfirmFrom(db, r, outs, k).Ok? ==>
              SettledFrom(init, db, ConfirmFrom(db, r, outs, k).value, r, k, ItemConfirmed)
    decreases |outs| - k
  {
    if k < |outs| {
      ConfirmOneEffect(init, db, r, k, outs[k]);
      RaisesStep(db.reservations[r].items, outs, k, ItemConfirmed);
      if ConfirmItem(db, r, k, outs[k]).Ok? {
        var next := ConfirmItem(db, r, k, outs[k]).value;
        LiveAfterOne(db, next, r, k, ItemConfirmed);
        ConfirmFromEffect(init, next, r, outs, k + 1);
        if ConfirmFrom(next, r, outs, k + 1).Ok? {
          SettledFromStep(init, db, next, ConfirmFrom(next, r, outs, k + 1).value, r, k, ItemConfirmed);
        }
      }
    } else {
      SettledFromEnd(init, db, r, ItemConfirmed);
    }
  }

  lemma StatusKeepsBooks(init: seq<Inventory>, db: Db, r: nat, status: Status)
    requires Books(init, db) && r < |db.reservations|
    ensures Books(init, db.SetStatus(r, status)) && SameStock(db, db.SetStatus(r, status))
  {
    var after := db.SetStatus(r, status);
    forall i: nat, side: Side
      ensures TotalOn(after.reservations, i, side) == TotalOn(db.reservations, i, side)
    {
      TotalUpdate(db.reservations, r, after.reservations[r], i, side);
    }
    forall i | 0 <= i < |init| ensures after.inventory[i].qtyReserved == init[i].qtyReserved + Expected(after, i) {
      assert after.IsInternal(i) == db.IsInternal(i);
    }
    forall c: Call ensures Settled(after, c) == Settled(db, c) {}
    forall s, k | 0 <= s < |after.reservations| && 0 <= k < |after.reservations[s].items|
      ensures ItemOk(after, after.reservations[s].items[k])
    {
      assert ItemOk(db, db.reservations[s].items[k]);
    }
    forall s | 0 <= s < |after.reservations| ensures DistinctRows(after.reservations[s].items) {
      assert DistinctRows(db.reservations[s].items);
    }
  }

  /** A reservation after it left `pending` for `status`. */
  function Closed(res: Reservation, status: Status): Reservation {
    res.(status := status, items := Marked(res.items, 0, SettledAs(status)))
  }

  lemma OrdersKept(db: Db, after: Db, r: nat, status: Status)
    requires OrdersAgree(db) && r < |db.reservations|
    requires db.reservations[r].status != Confirmed && status != Confirmed
    requires after.orders == db.orders && after.reservations == db.reservations[r := Closed(db.reservations[r], status)]
    ensures OrdersAgree(after)
  {}

  lemma AgreementKept(db: Db, after: Db, r: nat, status: Status)
    requires forall s | 0 <= s < |db.reservations| :: StatusesAgree(db.reservations[s])
    requires r < |db.reservations| && status != Pending
    requires after.reservations == db.reservations[r := Closed(db.reservations[r], status)]
    ensures forall s | 0 <= s < |after.reservations| :: StatusesAgree(after.reservations[s])
  {
    assert StatusesAgree(Closed(db.reservations[r], status));
  }

  lemma ClosedKeepsInv(init: seq<Inventory>, db: Db, after: Db, r: nat, status: Status)
    requires Inv(init, db) && r < |db.reservations| && db.reservations[r].status == Pending
    requires status == Cancelled || status == Expired
    requires Books(init, after) && after.orders == db.orders
    requires after.reservations == db.reservations[r := Closed(db.reservations[r], status)]
    ensures Inv(init, after)
  {
    OrdersKept(db, after, r, status);
    AgreementKept(db, after, r, status);
  }

  /** Cancelling or expiring a pending reservation never raises: it releases every item,
      records the new status, and touches nothing else but what the books say. */
  lemma CloseEffect(init: seq<Inventory>, db: Db, r: nat, status: Status)
    requires Inv(init, db) && r < |db.reservations| && db.reservations[r].status == Pending
    requires status == Cancelled || status == Expired
    ensures CloseTx(db, r, status).Ok?
    ensures
      var after := CloseTx(db, r, status).value;
      && Inv(init, after) && SameStock(db, after) && after.orders == db.orders
      && after.reservations == db.reservations[r := Closed(db.reservations[r], status)]
  {
    assert LiveFrom(db, r, 0) by {
      assert StatusesAgree(db.reservations[r]);
    }
    var n := |db.reservations[r].items|;
    var freed := ReleaseFromEffect(init, db, r, n, 0);
    StatusKeepsBooks(init, freed, r, status);
    assert freed.SetStatus(r, status).reservations == db.reservations[r := Closed(db.reservations[r], status)];
    ClosedKeepsInv(init, db, freed.SetStatus(r, status), r, status);
  }

  /** `cancel`, completely: which exception it raises, or the state it leaves. */
  lemma CancelEffect(init: seq<Inventory>, db: Db, rid: int)
    requires Inv(init, db)
    ensures
      match CancelTx(db, rid)
      case Err(e) =>
        if !(0 <= rid < |db.reservations|) then e == ReservationNotFound(rid)
        else db.reservations[rid].status == Confirmed && e == ReservationState(rid)
      case Ok(after) =>
        && 0 <= rid < |db.reservations|
        && match db.reservations[rid].status
           case Pending =>
             && Inv(init, after) && SameStock(db, after) && after.orders == db.orders
             && after.reservations == db.reservations[rid := Closed(db.reservations[rid], Cancelled)]
           case Confirmed => false
           case _ => after == db
  {
    if 0 <= rid < |db.reservations| && db.reservations[rid].status == Pending {
      CloseEffect(init, db, rid, Cancelled);
    }
  }

  /** The tests of `confirm`, on any database at all, in their order: unknown, no longer pending, too late, ordered. */
  lemma ConfirmRefuses(db: Db, rid: int, now: int, outs: seq<ConfirmOutcome>)
    requires AnswersEachItem(db, rid, outs)
    ensures !(0 <= rid < |db.reservations|) ==> ConfirmTx(db, rid, now, outs) == Err(ReservationNotFound(rid))
    ensures 0 <= rid < |db.reservations| ==>
              var res := db.reservations[rid];
              && (res.status != Pending || res.expiresAt < now ==>
                    ConfirmTx(db, rid, now, outs) == Err(ReservationState(rid)))
              && (res.status == Pending && now <= res.expiresAt && CountOrders(db.orders, rid) > 0 ==>
                    ConfirmTx(db, rid, now, outs) == Err(DuplicateOrder(rid)))
  {
    if 0 <= rid {
      HasOrderCounts(db.orders, rid);
    }
  }

  lemma CountAppend(orders: seq<Order>, order: Order, r: nat)
    ensures CountOrders(orders + [order], r) == CountOrders(orders, r) + if order.reservationId == r then 1 else 0
  {
    assert (orders + [order])[..|orders|] == orders;
  }

  /** `confirm`, completely: which exception it raises, or the state it leaves. The duplicate-order test,
      the unique key, and an adapter without a row never stop it. */
  lemma ConfirmEffect(init: seq<Inventory>, db: Db, rid: int, now: int, outs: seq<ConfirmOutcome>)
    requires Inv(init, db) && AnswersEachItem(db, rid, outs)
    ensures
      match ConfirmTx(db, rid, now, outs)
      case Err(e) =>
        if !(0 <= rid < |db.reservations|) then e == ReservationNotFound(rid)
        else if db.reservations[rid].status != Pending || db.reservations[rid].expiresAt < now
        then e == ReservationState(rid)
        else e == ProviderRaised && AnswerRaises(db.reservations[rid].items, outs, 0)
      case Ok(after) =>
        && 0 <= rid < |db.reservations| && db.reservations[rid].status == Pending
        && now <= db.reservations[rid].expiresAt
        && !AnswerRaises(db.reservations[rid].items, outs, 0)
        && Inv(init, after) && SameStock(db, after)
        && after.orders == db.orders + [Order(rid, db.reservations[rid].userId)]
        && after.reservations == db.reservations[rid := Closed(db.reservations[rid], Confirmed)]
  {
    hide Books, ConfirmFrom;
    if 0 <= rid < |db.reservations| && db.reservations[rid].status == Pending && now <= db.reservations[rid].expiresAt {
      assert !HasOrder(db.orders, rid) by {
        HasOrderCounts(db.orders, rid);
        assert CountOrders(db.orders, rid) == 0;
      }
      assert LiveFrom(db, rid, 0) by {
        assert StatusesAgree(db.reservations[rid]);
      }
      ConfirmFromEffect(init, db, rid, outs, 0);
      if ConfirmFrom(db, rid, outs, 0).Ok? {
        var consumed := ConfirmFrom(db, rid, outs, 0).value;
        StatusKeepsBooks(init, consumed, rid, Confirmed);
        assert consumed.SetStatus(rid, Confirmed).reservations ==
               db.reservations[rid := Closed(db.reservations[rid], Confirmed)];
        ConfirmedKeepsInv(init, db, consumed.SetStatus(rid, Confirmed), rid);
      }
    }
  }

  lemma OrderKeepsBooks(init: seq<Inventory>, db: Db, orders: seq<Order>)
    requires Books(init, db)
    ensures Books(init, db.(orders := orders)) && SameStock(db, db.(orders := orders))
  {
    var after := db.(orders := orders);
    forall i | 0 <= i < |init| ensures after.inventory[i].qtyReserved == init[i].qtyReserved + Expected(after, i) {
      assert after.IsInternal(i) == db.IsInternal(i);
    }
    forall c: Call ensures Settled(after, c) == Settled(db, c) {}
    forall s, k | 0 <= s < |after.reservations| && 0 <= k < |after.reservations[s].items|
      ensures ItemOk(after, after.reservations[s].items[k])
    {
      assert ItemOk(db, db.reservations[s].items[k]);
    }
    forall s | 0 <= s < |after.reservations| ensures DistinctRows(after.reservations[s].items) {
      assert DistinctRows(db.reservations[s].items);
    }
  }

  lemma OrderAdded(db: Db, after: Db, rid: nat)
    requires OrdersAgree(db) && rid < |db.reservations| && db.reservations[rid].status == Pending
    requires after.reservations == db.reservations[rid := Closed(db.reservations[rid], Confirmed)]
    requires after.orders == db.orders + [Order(rid, db.reservations[rid].userId)]
    ensures OrdersAgree(after)
  {
    forall r: nat
      ensures CountOrders(after.orders, r) ==
              if r < |after.reservations| && after.reservations[r].status == Confirmed then 1 else 0
    {
      CountAppend(db.orders, Order(rid, db.reservations[rid].userId), r);
      assert CountOrders(db.orders, r) ==
             if r < |db.reservations| && db.reservations[r].status == Confirmed then 1 else 0;
    }
  }

  lemma ConfirmedKeepsInv(init: seq<Inventory>, db: Db, closed: Db, rid: nat)
    requires Inv(init, db) && rid < |db.reservations| && db.reservations[rid].status == Pending
    requires Books(init, closed) && closed.orders == db.orders
    requires closed.reservations == db.reservations[rid := Closed(db.reservations[rid], Confirmed)]
    ensures InsertOrder(closed, rid).Ok? && Inv(init, InsertOrder(closed, rid).value)
    ensures SameStock(closed, InsertOrder(closed, rid).value)
  {
    HasOrderCounts(db.orders, rid);
    assert CountOrders(db.orders, rid) == 0;
    var after := InsertOrder(closed, rid).value;
    AgreementKept(db, after, rid, Confirmed);
    OrderAdded(db, after, rid);
    OrderKeepsBooks(init, closed, after.orders);
  }

  // ----- The sweep -----

  /** The reservations after those in `batch` have expired. */
  function Swept(rs: seq<Reservation>, batch: set<nat>): (r: seq<Reservation>)
    ensures |r| == |rs|
  {
    seq(|rs|, i requires 0 <= i < |rs| => if i in batch then Closed(rs[i], Expired) else rs[i])
  }

  function IdsFrom(batch: seq<nat>, k: nat): (ids: set<nat>)
    ensures forall r :: r in ids <==> exists b | k <= b < |batch| :: batch[b] == r
  {
    set b | k <= b < |batch| :: batch[b]
  }

  ghost predicate PendingFrom(db: Db, batch: seq<nat>, k: nat) {
    && (forall b | 0 <= b < |batch| :: batch[b] < |db.reservations|)
    && (forall b | k <= b < |batch| :: db.reservations[batch[b]].status == Pending)
    && (forall b, c | k <= b < c < |batch| :: batch[b] != batch[c])
  }

  lemma SweptStep(rs: seq<Reservation>, batch: seq<nat>, k: nat)
    requires k < |batch| && batch[k] < |rs| && forall c | k < c < |batch| :: batch[k] != batch[c]
    ensures Swept(rs[batch[k] := Closed(rs[batch[k]], Expired)], IdsFrom(batch, k + 1)) == Swept(rs, IdsFrom(batch, k))
  {
    assert batch[k] !in IdsFrom(batch, k + 1);
    forall r ensures r in IdsFrom(batch, k) <==> r in IdsFrom(batch, k + 1) || r == batch[k] {}
  }

  lemma PendingAfterClose(db: Db, next: Db, batch: seq<nat>, k: nat)
    requires k < |batch| && PendingFrom(db, batch, k)
    requires next.reservations == db.reservations[batch[k] := Closed(db.reservations[batch[k]], Expired)]
    ensures PendingFrom(next, batch, k + 1)
  {}

  lemma {:induction false} SweepFromEffect(init: seq<Inventory>, db: Db, batch: seq<nat>, k: nat)
    requires Inv(init, db) && k <= |batch| && PendingFrom(db, batch, k)
    ensures SweepFrom(db, batch, k).Ok?
    ensures
      var after := SweepFrom(db, batch, k).value;
      && Inv(init, after) && SameStock(db, after) && after.orders == db.orders
      && after.reservations == Swept(db.reservations, IdsFrom(batch, k))
    decreases |batch| - k
  {
    hide Books, OrdersAgree, CloseTx;
    if k < |batch| {
      CloseEffect(init, db, batch[k], Expired);
      var next := CloseTx(db, batch[k], Expired).value;
      PendingAfterClose(db, next, batch, k);
      SweepFromEffect(init, next, batch, k + 1);
      SweptStep(db.reservations, batch, k);
    } else {
      assert Swept(db.reservations, IdsFrom(batch, k)) == db.reservations;
    }
  }

  /** A sweep of pending reservations never raises, and expires exactly its batch. */
  lemma SweepEffect(init: seq<Inventory>, db: Db, batch: seq<nat>)
    requires Inv(init, db) && PendingFrom(db, batch, 0)
    ensures SweepTx(db, batch).Ok?
    ensures
      var after := SweepTx(db, batch).value;
      && Inv(init, after) && SameStock(db, after) && after.orders == db.orders
      && after.reservations == Swept(db.reservations, IdsFrom(batch, 0))
  {
    SweepFromEffect(init, db, batch, 0);
  }
}
