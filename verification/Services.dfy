/** The services as they run: loops over a session's uncommitted tables, and
    request handlers that commit or roll back. */
module Services {
  import opened Tables
  import opened Schemas
  import opened Queries
  import opened Transactions
  import opened Operations
  import opened Promises

  /** A database session: the tables everybody sees, those of the open transaction, and the settling calls
      whose requests have gone out to providers, which no rollback takes back. */
  class Session {
    var committed: Db
    var work: Db
    var sent: multiset<Call>

    constructor (db: Db)
      ensures committed == work == db && sent == multiset{}
    {
      committed, work, sent := db, db, multiset{};
    }

    method Commit()
      modifies `committed
      ensures committed == work == old(work)
    {
      committed := work;
    }

    method Rollback()
      modifies `work
      ensures work == committed == old(committed)
    {
      work := committed;
    }
  }

  /** Stock that is managed on the inventory row itself. */
  class InternalProviderAdapter {
    const db: Session
    const row: nat

    constructor (db: Session, row: nat)
      ensures this.db == db && this.row == row
    {
      this.db, this.row := db, row;
    }

    method HoldStock(qty: int) returns (held: bool)
      requires row < |db.work.inventory|
      modifies db`work
      ensures held <==> qty <= old(db.work).inventory[row].Effective()
      ensures db.work == if !held then old(db.work) else
                old(db.work).(inventory := old(db.work).inventory[row := old(db.work).inventory[row].Reserve(qty)])
    {
      var effective := db.work.inventory[row].Effective();
      if effective < qty {
        return false;
      }
      db.work := db.work.(inventory := db.work.inventory[row := db.work.inventory[row].Reserve(qty)]);
      return true;
    }
  }

  class ReservationService {
    const db: Session
    const ttl: int

    constructor (db: Session, ttl: int)
      ensures this.db == db && this.ttl == ttl
    {
      this.db, this.ttl := db, ttl;
    }

    /** Phase 1 of `create`: read without locks, and remember each product's row. */
    method ReadPhase(lines: seq<Line>) returns (r: Tx<map<int, nat>>)
      requires DistinctProducts(lines)
      ensures
        var seen := BestReads(db.work.inventory, lines);
        match PreflightError(seen, lines, 0)
        case Some(e) => r == Err(e)
        case None => r.Ok? && Maps(r.value, lines, IdsOf(seen))
    {
      ghost var seen := BestReads(db.work.inventory, lines);
      var inventoryMap: map<int, nat> := map[];
      for k := 0 to |lines|
        invariant PreflightError(seen, lines, 0) == PreflightError(seen, lines, k)
        invariant forall j | 0 <= j < k ::
            && lines[j].productId in inventoryMap && seen[j].Some?
            && inventoryMap[lines[j].productId] == seen[j].value.id
      {
        var inv := GetBestAvailable(db.work.inventory, lines[k].productId);
        if inv.None? {
          return Err(InsufficientStock(lines[k].productId));
        }
        var effective := db.work.inventory[inv.value].Effective();
        if effective < lines[k].qty {
          return Err(InsufficientStock(lines[k].productId));
        }
        inventoryMap := inventoryMap[lines[k].productId := inv.value];
      }
      return Ok(inventoryMap);
    }

    static ghost predicate Maps(rows: map<int, nat>, lines: seq<Line>, ids: seq<nat>) {
      |ids| == |lines| &&
      forall j | 0 <= j < |lines| :: lines[j].productId in rows && rows[lines[j].productId] == ids[j]
    }

    /** Phase 2: lock each row and check it again. */
    method LockPhase(lines: seq<Line>, inventoryMap: map<int, nat>, ghost ids: seq<nat>) returns (r: Tx<map<int, nat>>)
      requires DistinctProducts(lines) && Maps(inventoryMap, lines, ids)
      ensures
        match LockError(db.work.inventory, ids, lines, 0)
        case Some(e) => r == Err(e)
        case None => r.Ok? && Maps(r.value, lines, ids)
    {
      var lockedInventory: map<int, nat> := map[];
      for k := 0 to |lines|
        invariant LockError(db.work.inventory, ids, lines, 0) == LockError(db.work.inventory, ids, lines, k)
        invariant forall j | 0 <= j < k ::
            lines[j].productId in lockedInventory && lockedInventory[lines[j].productId] == ids[j]
      {
        var locked := inventoryMap[lines[k].productId];
        if locked >= |db.work.inventory| {
          return Err(InsufficientStock(lines[k].productId));
        }
        var effective := db.work.inventory[locked].Effective();
        if effective < lines[k].qty {
          return Err(InsufficientStock(lines[k].productId));
        }
        lockedInventory := lockedInventory[lines[k].productId := locked];
      }
      return Ok(lockedInventory);
    }

    /** Phase 3: reserve on all locked rows. */
    method ReservePhase(lines: seq<Line>, lockedInventory: map<int, nat>, ghost ids: seq<nat>)
      requires Maps(lockedInventory, lines, ids)
      requires forall j | 0 <= j < |ids| :: ids[j] < |db.work.inventory|
      modifies db`work
      ensures db.work == old(db.work).(inventory := ReserveFrom(old(db.work).inventory, ids, lines, 0))
    {
      ghost var was := db.work;
      for k := 0 to |lines|
        invariant db.work == was.(inventory := db.work.inventory) && |db.work.inventory| == |was.inventory|
        invariant ReserveFrom(was.inventory, ids, lines, 0) == ReserveFrom(db.work.inventory, ids, lines, k)
      {
        var i := lockedInventory[lines[k].productId];
        db.work := db.work.(inventory := db.work.inventory[i := db.work.inventory[i].Reserve(lines[k].qty)]);
      }
    }

    /** Phase 5 for one line. */
    method HoldLine(rid: nat, i: nat, line: Line, out: HoldOutcome) returns (r: Tx<()>)
      requires rid < |db.work.reservations| && i < |db.work.inventory|
      modifies db`work
      ensures
        match HoldItem(old(db.work), rid, i, line, out)
        case Ok(done) => r == Ok(()) && db.work == done
        case Err(e) => r == Err(e)
    {
      var row := db.work.inventory[i];
      var item := NewItem(row, i, line);
      var adapter := Resolve(db.work.ProviderOf(row.providerId), Some(i));
      if adapter.Err? {
        return Err(adapter.error);
      }
      match adapter.value {
        case InternalAdapter(_) =>
          var internal := new InternalProviderAdapter(db, i);
          var held := internal.HoldStock(line.qty);
          if !held {
            return Err(InsufficientStock(line.productId));
          }
          item := item.(status := Held);
        case ExternalAdapter =>
          match out
          case Ref(ref) => item := item.(status := Held, holdRef := Some(ref));
          case NullRef => item := item.(status := Held);
          case HoldTimedOut(message) => item := item.(status := ProviderFailed, errorMessage := Some(message));
          case HoldUnavailable(message) => item := item.(status := ProviderFailed, errorMessage := Some(message));
          case HoldInsufficient => return Err(InsufficientStock(line.productId));
          case HoldRaised => return Err(ProviderRaised);
      }
      db.work := AddItem(db.work, rid, item);
      return Ok(());
    }

    /** Phase 5: insert the items and hold their stock at the providers. */
    method HoldPhase(
      rid: nat, lines: seq<Line>, lockedInventory: map<int, nat>, outs: seq<HoldOutcome>, ghost ids: seq<nat>)
      returns (r: Tx<()>)
      requires rid < |db.work.reservations| && |outs| == |lines| && Maps(lockedInventory, lines, ids)
      requires forall j | 0 <= j < |ids| :: ids[j] < |db.work.inventory|
      modifies db`work
      ensures
        match HoldFrom(old(db.work), rid, ids, lines, outs, 0)
        case Ok(done) => r == Ok(()) && db.work == done
        case Err(e) => r == Err(e)
    {
      ghost var was := db.work;
      for k := 0 to |lines|
        invariant rid < |db.work.reservations| && |db.work.inventory| == |was.inventory|
        invariant HoldFrom(was, rid, ids, lines, outs, 0) == HoldFrom(db.work, rid, ids, lines, outs, k)
      {
        var held := HoldLine(rid, lockedInventory[lines[k].productId], lines[k], outs[k]);
        if held.Err? {
          return held;
        }
      }
      return Ok(());
    }

    method Create(userId: string, lines: seq<Line>, outs: seq<HoldOutcome>, now: int) returns (r: Tx<nat>)
      requires ValidRequest(lines) && |outs| == |lines|
      modifies db`work
      ensures
        var was := old(db.work);
        match CreateTx(was, userId, lines, BestReads(was.inventory, lines), outs, now + ttl)
        case Ok(done) => r == Ok(|was.reservations|) && db.work == done
        case Err(e) => r == Err(e)
    {
      hide PreflightError, LockError, ReserveFrom, HoldFrom;
      NoDuplicatesMeansDistinct(lines);
      var expiresAt := now + ttl;
      var inventoryMap := ReadPhase(lines);
      if inventoryMap.Err? {
        return Err(inventoryMap.error);
      }
      ghost var ids := IdsOf(BestReads(db.work.inventory, lines));
      var lockedInventory := LockPhase(lines, inventoryMap.value, ids);
      if lockedInventory.Err? {
        return Err(lockedInventory.error);
      }
      ReservePhase(lines, lockedInventory.value, ids);
      var rid := |db.work.reservations|;
      db.work := InsertReservation(db.work, userId, expiresAt);
      var held := HoldPhase(rid, lines, lockedInventory.value, outs, ids);
      if held.Err? {
        return Err(held.error);
      }
      return Ok(rid);
    }

    /** `confirm` on one item. */
    method ConfirmOne(rid: nat, k: nat, out: ConfirmOutcome) returns (r: Tx<()>)
      requires db.work.HasItem(rid, k)
      modifies db`work, db`sent
      ensures db.sent == old(db.sent) + ConfirmSends(old(db.work), rid, k, out)
      ensures
        match ConfirmItem(old(db.work), rid, k, out)
        case Ok(done) => r == Ok(()) && db.work == done
        case Err(e) => r == Err(e)
    {
      var item := db.work.reservations[rid].items[k];
      db.work := db.work.(inventory := ConsumeRow(db.work.inventory, item.inventoryId, item.qty));
      if item.RemotelyHeld() {
        var adapter := Resolve(db.work.ProviderOf(item.providerId), None);
        if adapter.Err? {
          return Err(adapter.error);
        }
        if out.WentOut() {
          db.sent := db.sent + multiset{CallFor(ConfirmHold, db.work, rid, k)};
        }
        if out.ConfirmRaised? {
          return Err(ProviderRaised);
        }
        db.work := db.work.(calls := db.work.calls + multiset{CallFor(ConfirmHold, db.work, rid, k)});
      }
      db.work := db.work.SetItemStatus(rid, k, ItemConfirmed);
      return Ok(());
    }

    /** The loop of `confirm`. */
    method ConfirmItems(rid: nat, outs: seq<ConfirmOutcome>) returns (r: Tx<()>)
      requires rid < |db.work.reservations| && |outs| == |db.work.reservations[rid].items|
      modifies db`work, db`sent
      ensures db.sent == old(db.sent) + ConfirmFromSends(old(db.work), rid, outs, 0)
      ensures
        match ConfirmFrom(old(db.work), rid, outs, 0)
        case Ok(done) => r == Ok(()) && db.work == done
        case Err(e) => r == Err(e)
    {
      ghost var was := db.work;
      for k := 0 to |outs|
        invariant |db.work.reservations| == |was.reservations|
        invariant |db.work.reservations[rid].items| == |outs|
        invariant ConfirmFrom(was, rid, outs, 0) == ConfirmFrom(db.work, rid, outs, k)
        invariant old(db.sent) + ConfirmFromSends(was, rid, outs, 0)
               == db.sent + ConfirmFromSends(db.work, rid, outs, k)
      {
        var confirmed := ConfirmOne(rid, k, outs[k]);
        if confirmed.Err? {
          return confirmed;
        }
      }
      return Ok(());
    }

    method Confirm(rid: int, outs: seq<ConfirmOutcome>, now: int) returns (r: Tx<Order>)
      requires AnswersEachItem(db.work, rid, outs)
      modifies db`work, db`sent
      ensures db.sent == old(db.sent) + ConfirmTxSends(old(db.work), rid, now, outs)
      ensures
        match ConfirmTx(old(db.work), rid, now, outs)
        case Ok(done) => db.work == done && done.orders != [] && r == Ok(done.orders[|done.orders| - 1])
        case Err(e) => r == Err(e)
    {
      if !(0 <= rid < |db.work.reservations|) {
        return Err(ReservationNotFound(rid));
      }
      var reservation := db.work.reservations[rid];
      if reservation.status != Pending {
        return Err(ReservationState(rid));
      }
      if reservation.expiresAt < now {
        return Err(ReservationState(rid));
      }
      if HasOrder(db.work.orders, rid) {
        return Err(DuplicateOrder(rid));
      }

      var confirmed := ConfirmItems(rid, outs);
      if confirmed.Err? {
        return Err(confirmed.error);
      }

      db.work := db.work.SetStatus(rid, Confirmed);
      var order := Order(rid, db.work.reservations[rid].userId);
      if HasOrder(db.work.orders, rid) {
        return Err(OrderKeyTaken(rid));
      }
      db.work := db.work.(orders := db.work.orders + [order]);
      return Ok(order);
    }

    /** `_release_items` on one item. */
    method ReleaseOne(rid: nat, k: nat, unsent: set<Call>) returns (r: Tx<()>)
      requires db.work.HasItem(rid, k)
      modifies db`work, db`sent
      ensures db.sent == old(db.sent) + ReleaseSends(old(db.work), rid, k, unsent)
      ensures
        match ReleaseItem(old(db.work), rid, k)
        case Ok(done) => r == Ok(()) && db.work == done
        case Err(e) => r == Err(e)
    {
      var item := db.work.reservations[rid].items[k];
      if item.status == Released || item.status == ItemConfirmed {
        return Ok(());
      }
      db.work := db.work.(inventory := ReleaseRow(db.work.inventory, item.inventoryId, item.qty));
      if item.RemotelyHeld() {
        var adapter := Resolve(db.work.ProviderOf(item.providerId), None);
        if adapter.Err? {
          return Err(adapter.error);
        }
        if CallFor(ReleaseHold, db.work, rid, k) !in unsent {
          db.sent := db.sent + multiset{CallFor(ReleaseHold, db.work, rid, k)};
        }
        db.work := db.work.(calls := db.work.calls + multiset{CallFor(ReleaseHold, db.work, rid, k)});
      }
      db.work := db.work.SetItemStatus(rid, k, Released);
      return Ok(());
    }

    method ReleaseItems(rid: nat, unsent: set<Call>) returns (r: Tx<()>)
      requires rid < |db.work.reservations|
      modifies db`work, db`sent
      ensures
        var n := |old(db.work).reservations[rid].items|;
        db.sent == old(db.sent) + ReleaseFromSends(old(db.work), rid, n, 0, unsent)
      ensures
        match ReleaseFrom(old(db.work), rid, |old(db.work).reservations[rid].items|, 0)
        case Ok(done) => r == Ok(()) && db.work == done
        case Err(e) => r == Err(e)
    {
      ghost var was := db.work;
      var count := |db.work.reservations[rid].items|;
      for k := 0 to count
        invariant |db.work.reservations| == |was.reservations|
        invariant |db.work.reservations[rid].items| == count
        invariant ReleaseFrom(was, rid, count, 0) == ReleaseFrom(db.work, rid, count, k)
        invariant old(db.sent) + ReleaseFromSends(was, rid, count, 0, unsent)
               == db.sent + ReleaseFromSends(db.work, rid, count, k, unsent)
      {
        var released := ReleaseOne(rid, k, unsent);
        if released.Err? {
          return released;
        }
      }
      return Ok(());
    }

    method Cancel(rid: int, unsent: set<Call>) returns (r: Tx<()>)
      modifies db`work, db`sent
      ensures db.sent == old(db.sent) + CancelTxSends(old(db.work), rid, unsent)
      ensures
        match CancelTx(old(db.work), rid)
        case Ok(done) => r == Ok(()) && db.work == done
        case Err(e) => r == Err(e)
    {
      if !(0 <= rid < |db.work.reservations|) {
        return Err(ReservationNotFound(rid));
      }
      var status := db.work.reservations[rid].status;
      if status == Cancelled || status == Expired {
        return Ok(());
      }
      if status != Pending {
        return Err(ReservationState(rid));
      }
      r := ReleaseItems(rid, unsent);
      if r.Ok? {
        db.work := db.work.SetStatus(rid, Cancelled);
      }
    }

    method ExpireBatch(limit: nat, now: int, locked: set<nat>, unsent: set<Call>)
      returns (r: Tx<nat>, ghost batch: seq<nat>)
      modifies db`work, db`sent
      ensures batch == GetExpiredPending(old(db.work), now, limit, locked)
      ensures db.sent == old(db.sent) + SweepFromSends(old(db.work), batch, 0, unsent)
      ensures
        match SweepTx(old(db.work), batch)
        case Ok(done) => r == Ok(|batch|) && db.work == done
        case Err(e) => r == Err(e)
    {
      ghost var was := db.work;
      var expired := GetExpiredPending(db.work, now, limit, locked);
      batch := expired;
      for k := 0 to |expired|
        invariant |db.work.reservations| == |was.reservations|
        invariant SweepFrom(was, batch, 0) == SweepFrom(db.work, batch, k)
        invariant old(db.sent) + SweepFromSends(was, batch, 0, unsent)
               == db.sent + SweepFromSends(db.work, batch, k, unsent)
      {
        ghost var before := db.work;
        var freed := ReleaseItems(expired[k], unsent);
        if freed.Err? {
          return Err(freed.error), batch;
        }
        db.work := db.work.SetStatus(expired[k], Expired);
        assert CloseTx(before, expired[k], Expired) == Ok(db.work);
      }
      return Ok(|expired|), batch;
    }
  }

  class InventoryService {
    const db: Session

    constructor (db: Session)
      ensures this.db == db
    {
      this.db := db;
    }

    method SyncFromProvider(pid: int, outs: seq<StockOutcome>, now: int) returns (r: Tx<SyncReport>)
      requires |outs| == |db.work.inventory|
      modifies db`work
      ensures
        match SyncTx(old(db.work), pid, outs, now)
        case Ok((done, report)) => r == Ok(report) && db.work == done
        case Err(e) => r == Err(e)
    {
      ghost var was := db.work;
      if !(0 <= pid < |db.work.providers|) {
        return Err(ProviderNotFound(pid));
      }
      if !db.work.providers[pid].isActive {
        return Err(ProviderInactive(pid));
      }
      if db.work.providers[pid].kind.Internal? {
        return Ok(SyncReport(0, []));
      }
      var rows := GetAllByProvider(db.work.inventory, pid);
      assert forall j | 0 <= j < |rows| :: rows[j] in rows;
      var updated, errors := 0, [];
      for k := 0 to |rows|
        invariant |db.work.inventory| == |outs| && updated >= 0
        invariant SyncFrom(was, rows, outs, now, SyncReport(0, []), 0)
               == SyncFrom(db.work, rows, outs, now, SyncReport(updated, errors), k)
      {
        var row := db.work.inventory[rows[k]];
        if !HasSku(db.work, row) {
          continue;
        }
        match outs[rows[k]]
        case Stock(qty) =>
          var synced := row.(qtyAvailable := qty, lastSyncedAt := Some(now));
          db.work := db.work.(inventory := db.work.inventory[rows[k] := synced]);
          updated := updated + 1;
        case StockError(message) =>
          errors := errors + [db.work.skus[row.productId] + ": " + message];
        case StockRaised =>
          return Err(ProviderRaised);
      }
      return Ok(SyncReport(updated, errors));
    }
  }

  // ----- Requests: every one commits when its service call returns and rolls back when it raises -----

  method EndRequest(session: Session, failed: bool)
    modifies session`committed, session`work
    ensures session.work == session.committed == if failed then old(session.committed) else old(session.work)
  {
    if failed {
      session.Rollback();
    } else {
      session.Commit();
    }
  }

  method PostReservation(session: Session, ttl: int, userId: string, lines: seq<Line>, outs: seq<HoldOutcome>, now: int)
    returns (r: Tx<nat>, ghost op: Op)
    requires session.work == session.committed
    requires ValidRequest(lines) && |outs| == |lines|
    modifies session`committed, session`work
    ensures op == Create(userId, lines, BestReads(old(session.committed).inventory, lines), outs, now + ttl)
    ensures ValidOp(old(session.committed), op)
    ensures session.work == session.committed == Apply(old(session.committed), op)
    ensures match Attempt(old(session.committed), op)
            case Ok(_) => r == Ok(|old(session.committed).reservations|)
            case Err(e) => r == Err(e)
    ensures ForeignKeys(old(session.committed)) && RemotesAccept(old(session.committed), op.seen, outs) ==>
              (r.Ok? <==> Served(old(session.committed), lines, op.seen))
  {
    hide CreateTx, BestReads, ForeignKeys, RemotesAccept, Served;
    op := Create(userId, lines, BestReads(session.committed.inventory, lines), outs, now + ttl);
    BestCreateComplete(session.committed, userId, lines, outs, now + ttl);
    var service := new ReservationService(session, ttl);
    r := service.Create(userId, lines, outs, now);
    EndRequest(session, r.Err?);
  }

  method PostConfirm(session: Session, ttl: int, rid: int, outs: seq<ConfirmOutcome>, now: int) returns (r: Tx<Order>)
    requires session.work == session.committed
    requires AnswersEachItem(session.committed, rid, outs)
    modifies session
    ensures session.work == session.committed == Apply(old(session.committed), Op.Confirm(rid, now, outs))
    ensures session.sent == old(session.sent) + Sent(old(session.committed), Op.Confirm(rid, now, outs))
    ensures match Attempt(old(session.committed), Op.Confirm(rid, now, outs))
            case Ok(done) => done.orders != [] && r == Ok(done.orders[|done.orders| - 1])
            case Err(e) => r == Err(e)
  {
    var service := new ReservationService(session, ttl);
    r := service.Confirm(rid, outs, now);
    EndRequest(session, r.Err?);
  }

  method PostCancel(session: Session, ttl: int, rid: int, unsent: set<Call>) returns (r: Tx<()>)
    requires session.work == session.committed
    modifies session
    ensures session.work == session.committed == Apply(old(session.committed), Op.Cancel(rid, unsent))
    ensures session.sent == old(session.sent) + Sent(old(session.committed), Op.Cancel(rid, unsent))
    ensures match Attempt(old(session.committed), Op.Cancel(rid, unsent))
            case Ok(_) => r == Ok(())
            case Err(e) => r == Err(e)
  {
    var service := new ReservationService(session, ttl);
    r := service.Cancel(rid, unsent);
    EndRequest(session, r.Err?);
  }

  const SWEEP_LIMIT: nat := 100

  /** The worker's job: an exception is logged and swallowed, so nothing is returned. */
  method RunExpirySweep(session: Session, ttl: int, now: int, locked: set<nat>, unsent: set<Call>)
    returns (ghost op: Op)
    requires session.work == session.committed
    modifies session
    ensures op == Sweep(now, GetExpiredPending(old(session.committed), now, 100, locked), unsent)
    ensures ValidOp(old(session.committed), op)
    ensures session.work == session.committed == Apply(old(session.committed), op)
    ensures session.sent == old(session.sent) + Sent(old(session.committed), op)
  {
    var service := new ReservationService(session, ttl);
    var r, batch := service.ExpireBatch(SWEEP_LIMIT, now, locked, unsent);
    op := Sweep(now, batch, unsent);
    EndRequest(session, r.Err?);
  }

  method PostSync(session: Session, pid: int, outs: seq<StockOutcome>, now: int) returns (r: Tx<SyncReport>)
    requires session.work == session.committed
    requires |outs| == |session.committed.inventory|
    modifies session`committed, session`work
    ensures session.work == session.committed == Apply(old(session.committed), Op.Sync(pid, outs, now))
    ensures match SyncTx(old(session.committed), pid, outs, now)
            case Ok((_, report)) => r == Ok(report)
            case Err(e) => r == Err(e)
  {
    var service := new InventoryService(session);
    r := service.SyncFromProvider(pid, outs, now);
    EndRequest(session, r.Err?);
  }
}
