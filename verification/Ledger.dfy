/** What the stock counters and the provider calls mean, item by item: the books
    that every step of confirm, cancel and expiry keeps, even in mid-transaction. */
module Ledger {
  import opened Tables
  import opened Transactions

  // ----- Sums of quantities -----

  /** Where an item's quantity is: still held, given back, or sold. */
  datatype Side = Live | Freed | Taken

  function SideOf(status: ItemStatus): Side {
    match status
    case ItemPending | Held | ProviderFailed => Live
    case Released => Freed
    case ItemConfirmed => Taken
  }

  function Share(item: Item, row: nat, side: Side): int {
    if item.inventoryId == row && SideOf(item.status) == side then item.qty else 0
  }

  /** The quantity that `items` have on a row, on one side. */
  function QtyOn(items: seq<Item>, row: nat, side: Side): int {
    if items == [] then 0
    else QtyOn(items[..|items| - 1], row, side) + Share(items[|items| - 1], row, side)
  }

  function TotalOn(rs: seq<Reservation>, row: nat, side: Side): int {
    if rs == [] then 0
    else TotalOn(rs[..|rs| - 1], row, side) + QtyOn(rs[|rs| - 1].items, row, side)
  }

  lemma {:induction false} QtyUpdate(items: seq<Item>, k: nat, item: Item, row: nat, side: Side)
    requires k < |items|
    ensures QtyOn(items[k := item], row, side)
         == QtyOn(items, row, side) - Share(items[k], row, side) + Share(item, row, side)
  {
    var last := |items| - 1;
    if k == last {
      assert items[k := item][..last] == items[..last];
    } else {
      QtyUpdate(items[..last], k, item, row, side);
      assert items[k := item][..last] == items[..last][k := item];
    }
  }

  lemma {:induction false} TotalUpdate(rs: seq<Reservation>, r: nat, res: Reservation, row: nat, side: Side)
    requires r < |rs|
    ensures TotalOn(rs[r := res], row, side)
         == TotalOn(rs, row, side) - QtyOn(rs[r].items, row, side) + QtyOn(res.items, row, side)
  {
    var last := |rs| - 1;
    if r == last {
      assert rs[r := res][..last] == rs[..last];
    } else {
      TotalUpdate(rs[..last], r, res, row, side);
      assert rs[r := res][..last] == rs[..last][r := res];
    }
  }

  lemma TotalAppend(rs: seq<Reservation>, res: Reservation, row: nat, side: Side)
    ensures TotalOn(rs + [res], row, side) == TotalOn(rs, row, side) + QtyOn(res.items, row, side)
  {
    assert (rs + [res])[..|rs|] == rs;
  }

  ghost predicate Positive(items: seq<Item>) {
    forall k | 0 <= k < |items| :: items[k].qty > 0
  }

  lemma {:induction false} QtyBounds(items: seq<Item>, row: nat, side: Side)
    requires Positive(items)
    ensures 0 <= QtyOn(items, row, side)
    ensures forall k | 0 <= k < |items| :: Share(items[k], row, side) <= QtyOn(items, row, side)
  {
    if items != [] {
      var front := items[..|items| - 1];
      QtyBounds(front, row, side);
      assert forall k | 0 <= k < |front| :: front[k] == items[k];
    }
  }

  lemma {:induction false} TotalBounds(rs: seq<Reservation>, row: nat, side: Side)
    requires forall r | 0 <= r < |rs| :: Positive(rs[r].items)
    ensures 0 <= TotalOn(rs, row, side)
    ensures forall r | 0 <= r < |rs| :: QtyOn(rs[r].items, row, side) <= TotalOn(rs, row, side)
  {
    if rs != [] {
      var front := rs[..|rs| - 1];
      TotalBounds(front, row, side);
      QtyBounds(rs[|rs| - 1].items, row, side);
      assert forall r | 0 <= r < |front| :: front[r] == rs[r];
    }
  }

  /** Moving one item to another status moves its quantity between the sides of its own row. */
  lemma MoveItem(db: Db, r: nat, k: nat, status: ItemStatus, row: nat, side: Side)
    requires db.HasItem(r, k)
    ensures TotalOn(db.SetItemStatus(r, k, status).reservations, row, side)
         == TotalOn(db.reservations, row, side)
            - Share(db.ItemAt(r, k), row, side) + Share(db.ItemAt(r, k).(status := status), row, side)
  {
    var res := db.reservations[r];
    var item := res.items[k].(status := status);
    TotalUpdate(db.reservations, r, res.(items := res.items[k := item]), row, side);
    QtyUpdate(res.items, k, item, row, side);
  }

  // ----- The books -----

  /** Reserved units of a row beyond its initial ones. An internal row counts a hold twice and
      gets it back once, so each of its items, once settled, leaves its quantity behind. */
  function Expected(db: Db, row: nat): int
    requires row < |db.inventory|
  {
    var live := TotalOn(db.reservations, row, Live);
    if db.IsInternal(row)
    then 2 * live + TotalOn(db.reservations, row, Freed) + TotalOn(db.reservations, row, Taken)
    else live
  }

  ghost predicate SameRows(init: seq<Inventory>, db: Db) {
    && |db.inventory| == |init|
    && (forall i | 0 <= i < |init| ::
          && db.inventory[i].productId == init[i].productId
          && db.inventory[i].providerId == init[i].providerId
          && 0 <= init[i].qtyReserved)
  }

  ghost predicate LedgerHolds(init: seq<Inventory>, db: Db)
    requires SameRows(init, db)
  {
    forall i | 0 <= i < |init| :: db.inventory[i].qtyReserved == init[i].qtyReserved + Expected(db, i)
  }

  ghost predicate ItemOk(db: Db, item: Item) {
    && item.inventoryId < |db.inventory|
    && item.productId == db.inventory[item.inventoryId].productId
    && item.providerId == db.inventory[item.inventoryId].providerId < |db.providers|
    && item.qty > 0
    && item.status != ItemPending
    && (item.holdRef.Some? ==> item.status != ProviderFailed && !db.IsInternal(item.inventoryId))
  }

  ghost predicate DistinctRows(items: seq<Item>) {
    forall j, k | 0 <= j < k < |items| :: items[j].inventoryId != items[k].inventoryId
  }

  ghost predicate ItemsOk(db: Db) {
    && (forall r, k | 0 <= r < |db.reservations| && 0 <= k < |db.reservations[r].items| ::
          ItemOk(db, db.reservations[r].items[k]))
    && (forall r | 0 <= r < |db.reservations| :: DistinctRows(db.reservations[r].items))
  }

  predicate KindMatches(kind: CallKind, status: ItemStatus) {
    (kind == ConfirmHold && status == ItemConfirmed) || (kind == ReleaseHold && status == Released)
  }

  /** The item of this call has been settled in the call's way, and had this hold reference. */
  predicate Settled(db: Db, c: Call) {
    && db.HasItem(c.reservationId, c.item)
    && db.ItemAt(c.reservationId, c.item).holdRef == Some(c.holdRef)
    && KindMatches(c.kind, db.ItemAt(c.reservationId, c.item).status)
  }

  /** Each settled remote hold got exactly its one call, and nothing else got any. */
  ghost predicate CallsOk(db: Db) {
    forall c: Call :: db.calls[c] == if Settled(db, c) then 1 else 0
  }

  ghost predicate Books(init: seq<Inventory>, db: Db) {
    && SameRows(init, db)
    && LedgerHolds(init, db)
    && ItemsOk(db)
    && CallsOk(db)
  }

  // ----- One settling step -----

  /** `after` is `db` with item `k` of reservation `r` settled as `status`: its row has `qty` fewer
      reserved units, its remote hold (if any) got its call, and nothing else changed but stock. */
  ghost predicate Settles(db: Db, after: Db, r: nat, k: nat, status: ItemStatus)
    requires db.HasItem(r, k) && db.ItemAt(r, k).inventoryId < |db.inventory|
  {
    var item := db.ItemAt(r, k);
    && (status == Released || status == ItemConfirmed)
    && after.skus == db.skus && after.providers == db.providers && after.orders == db.orders
    && after.reservations == db.SetItemStatus(r, k, status).reservations
    && |after.inventory| == |db.inventory|
    && (forall i | 0 <= i < |db.inventory| :: after.inventory[i] ==
          if i != item.inventoryId then db.inventory[i]
          else if status == ItemConfirmed then db.inventory[i].Consume(item.qty)
          else db.inventory[i].(qtyReserved := db.inventory[i].qtyReserved - item.qty))
    && after.calls == db.calls +
         if item.holdRef.None? then multiset{}
         else multiset{CallFor(if status == ItemConfirmed then ConfirmHold else ReleaseHold, db, r, k)}
  }

  lemma SettlingKeepsLedger(init: seq<Inventory>, db: Db, after: Db, r: nat, k: nat, status: ItemStatus)
    requires Books(init, db) && db.HasItem(r, k) && ItemOk(db, db.ItemAt(r, k))
    requires SideOf(db.ItemAt(r, k).status) == Live && Settles(db, after, r, k, status)
    ensures SameRows(init, after) && LedgerHolds(init, after)
    ensures forall i | 0 <= i < |init| :: StockBase(after, i) == StockBase(db, i)
  {
    forall i | 0 <= i < |init|
      ensures after.inventory[i].qtyReserved == init[i].qtyReserved + Expected(after, i)
      ensures StockBase(after, i) == StockBase(db, i)
    {
      MoveItem(db, r, k, status, i, Live);
      MoveItem(db, r, k, status, i, Freed);
      MoveItem(db, r, k, status, i, Taken);
    }
  }

  /** The stock a row would show if nothing had been sold from it. */
  function StockBase(db: Db, row: nat): int
    requires row < |db.inventory|
  {
    db.inventory[row].qtyAvailable + TotalOn(db.reservations, row, Taken)
  }

  lemma SettlingKeepsCalls(db: Db, after: Db, r: nat, k: nat, status: ItemStatus)
    requires CallsOk(db) && db.HasItem(r, k) && ItemOk(db, db.ItemAt(r, k))
    requires SideOf(db.ItemAt(r, k).status) == Live && Settles(db, after, r, k, status)
    ensures CallsOk(after)
  {
    forall c: Call ensures after.calls[c] == if Settled(after, c) then 1 else 0 {
      assert db.calls[c] == if Settled(db, c) then 1 else 0;
      if c.reservationId == r && c.item == k {
        assert !Settled(db, c);
      } else {
        assert Settled(after, c) == Settled(db, c);
      }
    }
  }

  lemma SettlingKeepsItems(db: Db, after: Db, r: nat, k: nat, status: ItemStatus)
    requires ItemsOk(db) && db.HasItem(r, k) && ItemOk(db, db.ItemAt(r, k)) && Settles(db, after, r, k, status)
    ensures ItemsOk(after)
  {
    forall s, j | 0 <= s < |after.reservations| && 0 <= j < |after.reservations[s].items|
      ensures ItemOk(after, after.reservations[s].items[j])
    {
      assert ItemOk(db, db.reservations[s].items[j]);
    }
    forall s | 0 <= s < |after.reservations| ensures DistinctRows(after.reservations[s].items) {
      assert DistinctRows(db.reservations[s].items);
    }
  }

  lemma SettlingKeepsBooks(init: seq<Inventory>, db: Db, after: Db, r: nat, k: nat, status: ItemStatus)
    requires Books(init, db) && db.HasItem(r, k) && ItemOk(db, db.ItemAt(r, k))
    requires SideOf(db.ItemAt(r, k).status) == Live && Settles(db, after, r, k, status)
    ensures Books(init, after)
    ensures forall i | 0 <= i < |init| :: StockBase(after, i) == StockBase(db, i)
  {
    SettlingKeepsLedger(init, db, after, r, k, status);
    SettlingKeepsCalls(db, after, r, k, status);
    SettlingKeepsItems(db, after, r, k, status);
  }

  /** A row holds at least the quantity of any one live item on it: the clamp at zero has nothing to clamp. */
  lemma LiveItemIsReserved(init: seq<Inventory>, db: Db, r: nat, k: nat)
    requires Books(init, db) && db.HasItem(r, k) && SideOf(db.ItemAt(r, k).status) == Live
    ensures ItemOk(db, db.ItemAt(r, k))
    ensures db.ItemAt(r, k).qty <= db.inventory[db.ItemAt(r, k).inventoryId].qtyReserved
  {
    var item := db.ItemAt(r, k);
    assert ItemOk(db, db.reservations[r].items[k]);
    forall s | 0 <= s < |db.reservations| ensures Positive(db.reservations[s].items) {
      forall j | 0 <= j < |db.reservations[s].items| ensures db.reservations[s].items[j].qty > 0 {
        assert ItemOk(db, db.reservations[s].items[j]);
      }
    }
    assert Positive(db.reservations[r].items);
    TotalBounds(db.reservations, item.inventoryId, Live);
    TotalBounds(db.reservations, item.inventoryId, Freed);
    TotalBounds(db.reservations, item.inventoryId, Taken);
    QtyBounds(db.reservations[r].items, item.inventoryId, Live);
  }

  /** What the loops do on any database at all, in order or not: a settled item is skipped by a release, an item whose
      row is gone touches no row, and an adapter for a remote hold needs an external provider. */
  lemma LoopsOnAnyDatabase(db: Db, r: nat, k: nat, out: ConfirmOutcome, unsent: set<Call>)
    requires db.HasItem(r, k)
    ensures
      var item := db.ItemAt(r, k);
      && (item.status in [Released, ItemConfirmed] ==>
            ReleaseItem(db, r, k) == Ok(db) && ReleaseSends(db, r, k, unsent) == multiset{})
      && (item.inventoryId >= |db.inventory| ==>
            && (ReleaseItem(db, r, k).Ok? ==> ReleaseItem(db, r, k).value.inventory == db.inventory)
            && (ConfirmItem(db, r, k, out).Ok? ==> ConfirmItem(db, r, k, out).value.inventory == db.inventory))
      && (item.status == Held && item.holdRef.Some? ==>
            match db.ProviderOf(item.providerId)
            case None => ReleaseItem(db, r, k) == Err(NoProvider) == ConfirmItem(db, r, k, out)
            case Some(provider) =>
              provider.kind == Internal ==>
                ReleaseItem(db, r, k) == Err(NoInventoryRow) == ConfirmItem(db, r, k, out))
  {}

  /** `_release_items` on a live item: it never raises, the clamp is plain subtraction, and the books are kept. */
  lemma ReleaseItemSettles(init: seq<Inventory>, db: Db, r: nat, k: nat)
    requires Books(init, db) && db.HasItem(r, k) && SideOf(db.ItemAt(r, k).status) == Live
    ensures ReleaseItem(db, r, k).Ok?
    ensures ItemOk(db, db.ItemAt(r, k)) && Settles(db, ReleaseItem(db, r, k).value, r, k, Released)
    ensures Books(init, ReleaseItem(db, r, k).value)
    ensures forall i | 0 <= i < |init| :: StockBase(ReleaseItem(db, r, k).value, i) == StockBase(db, i)
  {
    LiveItemIsReserved(init, db, r, k);
    SettlingKeepsBooks(init, db, ReleaseItem(db, r, k).value, r, k, Released);
  }

  /** `confirm` on a live item: it raises exactly when the provider call does, and otherwise keeps the books. */
  lemma ConfirmItemSettles(init: seq<Inventory>, db: Db, r: nat, k: nat, out: ConfirmOutcome)
    requires Books(init, db) && db.HasItem(r, k) && SideOf(db.ItemAt(r, k).status) == Live
    ensures ConfirmItem(db, r, k, out).Err? <==> db.ItemAt(r, k).holdRef.Some? && out.ConfirmRaised?
    ensures ConfirmItem(db, r, k, out).Err? ==> ConfirmItem(db, r, k, out).error == ProviderRaised
    ensures ItemOk(db, db.ItemAt(r, k))
    ensures ConfirmItem(db, r, k, out).Ok? ==>
              && Settles(db, ConfirmItem(db, r, k, out).value, r, k, ItemConfirmed)
              && Books(init, ConfirmItem(db, r, k, out).value)
              && forall i | 0 <= i < |init| :: StockBase(ConfirmItem(db, r, k, out).value, i) == StockBase(db, i)
  {
    LiveItemIsReserved(init, db, r, k);
    if ConfirmItem(db, r, k, out).Ok? {
      SettlingKeepsBooks(init, db, ConfirmItem(db, r, k, out).value, r, k, ItemConfirmed);
    }
  }
}
