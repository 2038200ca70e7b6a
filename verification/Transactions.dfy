/** What each service operation does to the database, as a function.

    Every loop of the service is a function that runs from item `k` to the end,
    and stops at the first exception. The answers of the providers are inputs.
    Beside each loop that settles holds, a `Sends` function gives the calls whose requests
    go out to providers: unlike the tables, they are not undone when the loop ends in an
    exception, and an adapter may fail before it sends anything.
  */
module Transactions {
  import opened Tables
  import opened Schemas
  import opened Queries

  // ----- Provider adapters -----

  datatype Adapter = InternalAdapter(row: nat) | ExternalAdapter

  /** What a remote hold can come to. `Raised` is any exception that `create` does not catch. */
  datatype HoldOutcome =
    | Ref(ref: string)
    | NullRef
    | HoldTimedOut(message: string)
    | HoldUnavailable(message: string)
    | HoldInsufficient
    | HoldRaised

  /** What a remote confirmation can come to. `ConfirmUnavailable` is an error answer; a timeout may come before the
      request went out, while connecting, or after. `ConfirmRaised` is any exception that `confirm` does not catch:
      before (a missing capability, a refused connection), or after (a lost answer). */
  datatype ConfirmOutcome =
    | Answered
    | ConfirmTimedOut(sent: bool)
    | ConfirmUnavailable
    | ConfirmRaised(sent: bool)
  {
    /** The request has gone out to the provider. */
    predicate WentOut() {
      match this
      case ConfirmTimedOut(sent) => sent
      case ConfirmRaised(sent) => sent
      case _ => true
    }
  }

  /** What a remote stock check can come to; `StockError` is any ProviderError. */
  datatype StockOutcome = Stock(qty: int) | StockError(message: string) | StockRaised

  function Resolve(provider: Option<Provider>, row: Option<nat>): Tx<Adapter> {
    if provider.None? then Err(NoProvider)
    else if provider.value.kind.Internal? then
      if row.None? then Err(NoInventoryRow) else Ok(InternalAdapter(row.value))
    else Ok(ExternalAdapter)
  }

  // ----- create -----

  /** What an unlocked read returned: a row id, and the row as it was then. */
  datatype Read = Read(id: nat, row: Inventory)

  /** Phase 1: the first line whose unlocked read does not promise enough stock. */
  function PreflightError(seen: seq<Option<Read>>, lines: seq<Line>, k: nat): (e: Option<Error>)
    requires |seen| == |lines| && k <= |lines|
    ensures e.None? <==>
            forall j | k <= j < |lines| :: seen[j].Some? && lines[j].qty <= seen[j].value.row.Effective()
    decreases |lines| - k
  {
    if k == |lines| then None
    else if seen[k].None? || seen[k].value.row.Effective() < lines[k].qty
    then Some(InsufficientStock(lines[k].productId))
    else PreflightError(seen, lines, k + 1)
  }

  /** Phase 2: the first line whose locked row is gone or no longer has enough stock. */
  function LockError(inventory: seq<Inventory>, ids: seq<nat>, lines: seq<Line>, k: nat): (e: Option<Error>)
    requires |ids| == |lines| && k <= |lines|
    ensures e.None? <==>
            forall j | k <= j < |lines| :: ids[j] < |inventory| && lines[j].qty <= inventory[ids[j]].Effective()
    decreases |lines| - k
  {
    if k == |lines| then None
    else if ids[k] >= |inventory| || inventory[ids[k]].Effective() < lines[k].qty
    then Some(InsufficientStock(lines[k].productId))
    else LockError(inventory, ids, lines, k + 1)
  }

  /** Phase 3: reserve on every locked row. */
  function ReserveFrom(inventory: seq<Inventory>, ids: seq<nat>, lines: seq<Line>, k: nat): (r: seq<Inventory>)
    requires |ids| == |lines| && k <= |lines|
    requires forall j | k <= j < |ids| :: ids[j] < |inventory|
    ensures |r| == |inventory|
    decreases |lines| - k
  {
    if k == |lines| then inventory
    else ReserveFrom(inventory[ids[k] := inventory[ids[k]].Reserve(lines[k].qty)], ids, lines, k + 1)
  }

  /** The item that phase 5 inserts for a line, before its provider is called. */
  function NewItem(row: Inventory, id: nat, line: Line): Item {
    Item(line.productId, id, row.providerId, line.qty, ItemPending, None, None)
  }

  /** Phase 5 for one line: insert the item, call the provider, record the outcome. */
  function HoldItem(db: Db, r: nat, id: nat, line: Line, out: HoldOutcome): (tx: Tx<Db>)
    requires r < |db.reservations| && id < |db.inventory|
    ensures tx.Ok? ==> |tx.value.reservations| == |db.reservations| && |tx.value.inventory| == |db.inventory|
  {
    var row := db.inventory[id];
    var item := NewItem(row, id, line);
    var adapter :- Resolve(db.ProviderOf(row.providerId), Some(id));
    match adapter
    case InternalAdapter(i) =>
      if i >= |db.inventory| || db.inventory[i].Effective() < line.qty then Err(InsufficientStock(line.productId))
      else
        Ok(AddItem(db.(inventory := db.inventory[i := db.inventory[i].Reserve(line.qty)]), r, item.(status := Held)))
    case ExternalAdapter =>
      match out
      case Ref(ref) => Ok(AddItem(db, r, item.(status := Held, holdRef := Some(ref))))
      case NullRef => Ok(AddItem(db, r, item.(status := Held)))
      case HoldTimedOut(message) => Ok(AddItem(db, r, item.(status := ProviderFailed, errorMessage := Some(message))))
      case HoldUnavailable(message) =>
        Ok(AddItem(db, r, item.(status := ProviderFailed, errorMessage := Some(message))))
      case HoldInsufficient => Err(InsufficientStock(line.productId))
      case HoldRaised => Err(ProviderRaised)
  }

  function AddItem(db: Db, r: nat, item: Item): Db
    requires r < |db.reservations|
  {
    var res := db.reservations[r];
    db.(reservations := db.reservations[r := res.(items := res.items + [item])])
  }

  function HoldFrom(db: Db, r: nat, ids: seq<nat>, lines: seq<Line>, outs: seq<HoldOutcome>, k: nat): (tx: Tx<Db>)
    requires r < |db.reservations|
    requires |ids| == |lines| == |outs| && k <= |lines|
    requires forall j | k <= j < |ids| :: ids[j] < |db.inventory|
    ensures tx.Ok? ==> |tx.value.reservations| == |db.reservations|
    decreases |lines| - k
  {
    if k == |lines| then Ok(db)
    else
      var next :- HoldItem(db, r, ids[k], lines[k], outs[k]);
      HoldFrom(next, r, ids, lines, outs, k + 1)
  }

  function IdsOf(seen: seq<Option<Read>>): (ids: seq<nat>)
    requires forall j | 0 <= j < |seen| :: seen[j].Some?
    ensures |ids| == |seen| && forall j | 0 <= j < |ids| :: ids[j] == seen[j].value.id
  {
    seq(|seen|, j requires 0 <= j < |seen| => seen[j].value.id)
  }

  /** Phase 4: the new reservation, still without items. */
  function InsertReservation(db: Db, userId: string, expiresAt: int): Db {
    db.(reservations := db.reservations + [Reservation(userId, Pending, expiresAt, [])])
  }

  /** `create`: the database it leaves, when its unlocked reads returned `seen` and the providers answer `outs`. */
  function CreateTx(
    db: Db, userId: string, lines: seq<Line>, seen: seq<Option<Read>>, outs: seq<HoldOutcome>, expiresAt: int)
    : (tx: Tx<Db>)
    requires |seen| == |lines| == |outs|
  {
    var preflight := PreflightError(seen, lines, 0);
    if preflight.Some? then Err(preflight.value)
    else
      var ids := IdsOf(seen);
      var relock := LockError(db.inventory, ids, lines, 0);
      if relock.Some? then Err(relock.value)
      else
        var reserved := db.(inventory := ReserveFrom(db.inventory, ids, lines, 0));
        HoldFrom(InsertReservation(reserved, userId, expiresAt), |db.reservations|, ids, lines, outs, 0)
  }

  /** The unlocked reads of a `create` that runs alone. */
  function BestReads(inventory: seq<Inventory>, lines: seq<Line>): (seen: seq<Option<Read>>)
    ensures |seen| == |lines|
  {
    seq(|lines|, j requires 0 <= j < |lines| => BestRead(inventory, lines[j].productId))
  }

  function BestRead(inventory: seq<Inventory>, productId: int): Option<Read> {
    var best := GetBestAvailable(inventory, productId);
    if best.None? then None else Some(Read(best.value, inventory[best.value]))
  }

  // ----- confirm -----

  function ConsumeRow(inventory: seq<Inventory>, id: nat, qty: int): (r: seq<Inventory>)
    ensures |r| == |inventory|
  {
    if id < |inventory| then inventory[id := inventory[id].Consume(qty)] else inventory
  }

  function CallFor(kind: CallKind, db: Db, r: nat, k: nat): Call
    requires db.HasItem(r, k) && db.ItemAt(r, k).holdRef.Some?
  {
    Call(kind, r, k, db.ItemAt(r, k).holdRef.value)
  }

  /** One item of `confirm`: consume the stock, settle the remote hold, mark the item. */
  function ConfirmItem(db: Db, r: nat, k: nat, out: ConfirmOutcome): (tx: Tx<Db>)
    requires db.HasItem(r, k)
    ensures tx.Ok? ==> |tx.value.reservations| == |db.reservations|
    ensures tx.Ok? ==> |tx.value.reservations[r].items| == |db.reservations[r].items|
  {
    var item := db.ItemAt(r, k);
    var consumed := db.(inventory := ConsumeRow(db.inventory, item.inventoryId, item.qty));
    if !item.RemotelyHeld() then Ok(consumed.SetItemStatus(r, k, ItemConfirmed))
    else
      var _ :- Resolve(db.ProviderOf(item.providerId), None);
      if out.ConfirmRaised? then Err(ProviderRaised)
      else
        var called := consumed.(calls := db.calls + multiset{CallFor(ConfirmHold, db, r, k)});
        Ok(called.SetItemStatus(r, k, ItemConfirmed))
  }

  /** The call of this step, if its request goes out, whether or not its transaction will commit. */
  function ConfirmSends(db: Db, r: nat, k: nat, out: ConfirmOutcome): multiset<Call>
    requires db.HasItem(r, k)
  {
    var item := db.ItemAt(r, k);
    if item.RemotelyHeld() && Resolve(db.ProviderOf(item.providerId), None).Ok? && out.WentOut()
    then multiset{CallFor(ConfirmHold, db, r, k)}
    else multiset{}
  }

  function ConfirmFrom(db: Db, r: nat, outs: seq<ConfirmOutcome>, k: nat): (tx: Tx<Db>)
    requires r < |db.reservations| && |outs| == |db.reservations[r].items| && k <= |outs|
    ensures tx.Ok? ==> |tx.value.reservations| == |db.reservations|
    decreases |outs| - k
  {
    if k == |outs| then Ok(db)
    else
      var next :- ConfirmItem(db, r, k, outs[k]);
      ConfirmFrom(next, r, outs, k + 1)
  }

  /** The calls that go out in the loop of `confirm` from item `k` on, up to its end or its exception. */
  function ConfirmFromSends(db: Db, r: nat, outs: seq<ConfirmOutcome>, k: nat): multiset<Call>
    requires r < |db.reservations| && |outs| == |db.reservations[r].items| && k <= |outs|
    decreases |outs| - k
  {
    if k == |outs| then multiset{}
    else
      var next := ConfirmItem(db, r, k, outs[k]);
      ConfirmSends(db, r, k, outs[k]) +
      if next.Err? then multiset{} else ConfirmFromSends(next.value, r, outs, k + 1)
  }

  /** Inserting an order, which the unique key on the reservation id may refuse. */
  function InsertOrder(db: Db, r: nat): (tx: Tx<Db>)
    requires r < |db.reservations|
  {
    if HasOrder(db.orders, r) then Err(OrderKeyTaken(r))
    else Ok(db.(orders := db.orders + [Order(r, db.reservations[r].userId)]))
  }

  /** The tests `confirm` makes before it touches anything. */
  function ConfirmGuard(db: Db, rid: int, now: int): (e: Option<Error>)
    ensures e.None? <==>
            && 0 <= rid < |db.reservations|
            && db.reservations[rid].status == Pending
            && now <= db.reservations[rid].expiresAt
            && !HasOrder(db.orders, rid)
  {
    if !(0 <= rid < |db.reservations|) then Some(ReservationNotFound(rid))
    else if db.reservations[rid].status != Pending then Some(ReservationState(rid))
    else if db.reservations[rid].expiresAt < now then Some(ReservationState(rid))
    else if HasOrder(db.orders, rid) then Some(DuplicateOrder(rid))
    else None
  }

  predicate AnswersEachItem<T>(db: Db, rid: int, outs: seq<T>) {
    0 <= rid < |db.reservations| ==> |outs| == |db.reservations[rid].items|
  }

  function ConfirmTx(db: Db, rid: int, now: int, outs: seq<ConfirmOutcome>): (tx: Tx<Db>)
    requires AnswersEachItem(db, rid, outs)
  {
    var guard := ConfirmGuard(db, rid, now);
    if guard.Some? then Err(guard.value)
    else
      var consumed :- ConfirmFrom(db, rid, outs, 0);
      InsertOrder(consumed.SetStatus(rid, Confirmed), rid)
  }

  /** The calls that go out in `confirm`, whether it then returns or raises. */
  function ConfirmTxSends(db: Db, rid: int, now: int, outs: seq<ConfirmOutcome>): multiset<Call>
    requires AnswersEachItem(db, rid, outs)
  {
    if ConfirmGuard(db, rid, now).Some? then multiset{} else ConfirmFromSends(db, rid, outs, 0)
  }

  // ----- cancel and expiry -----

  function ReleaseRow(inventory: seq<Inventory>, id: nat, qty: int): (r: seq<Inventory>)
    ensures |r| == |inventory|
  {
    if id < |inventory| then inventory[id := inventory[id].Release(qty)] else inventory
  }

  /** One item of `_release_items`; an exception of the provider's release call is swallowed. */
  function ReleaseItem(db: Db, r: nat, k: nat): (tx: Tx<Db>)
    requires db.HasItem(r, k)
    ensures tx.Ok? ==> |tx.value.reservations| == |db.reservations|
    ensures tx.Ok? ==> |tx.value.reservations[r].items| == |db.reservations[r].items|
  {
    var item := db.ItemAt(r, k);
    if item.status == Released || item.status == ItemConfirmed then Ok(db)
    else
      var freed := db.(inventory := ReleaseRow(db.inventory, item.inventoryId, item.qty));
      if !item.RemotelyHeld() then Ok(freed.SetItemStatus(r, k, Released))
      else
        var _ :- Resolve(db.ProviderOf(item.providerId), None);
        var called := freed.(calls := db.calls + multiset{CallFor(ReleaseHold, db, r, k)});
        Ok(called.SetItemStatus(r, k, Released))
  }

  /** The same for a release. The code ignores what a release call returns or raises, so all that the world decides
      about it is whether its request goes out: not for want of the capability, or of a connection. `unsent` are
      those that do not. */
  function ReleaseSends(db: Db, r: nat, k: nat, unsent: set<Call>): multiset<Call>
    requires db.HasItem(r, k)
  {
    var item := db.ItemAt(r, k);
    if item.RemotelyHeld() && Resolve(db.ProviderOf(item.providerId), None).Ok?
       && CallFor(ReleaseHold, db, r, k) !in unsent
    then multiset{CallFor(ReleaseHold, db, r, k)}
    else multiset{}
  }

  /** The items of reservation `r` from the `k`-th to the last, of `n`. */
  function ReleaseFrom(db: Db, r: nat, n: nat, k: nat): (tx: Tx<Db>)
    requires r < |db.reservations| && n == |db.reservations[r].items| && k <= n
    ensures tx.Ok? ==> |tx.value.reservations| == |db.reservations|
    decreases n - k
  {
    if k == n then Ok(db)
    else
      var next :- ReleaseItem(db, r, k);
      ReleaseFrom(next, r, n, k + 1)
  }

  function ReleaseFromSends(db: Db, r: nat, n: nat, k: nat, unsent: set<Call>): multiset<Call>
    requires r < |db.reservations| && n == |db.reservations[r].items| && k <= n
    decreases n - k
  {
    if k == n then multiset{}
    else
      var next := ReleaseItem(db, r, k);
      ReleaseSends(db, r, k, unsent) +
      if next.Err? then multiset{} else ReleaseFromSends(next.value, r, n, k + 1, unsent)
  }

  /** Release every item of a reservation and close it as `status`. */
  function CloseTx(db: Db, r: nat, status: Status): (tx: Tx<Db>)
    requires r < |db.reservations|
    ensures tx.Ok? ==> |tx.value.reservations| == |db.reservations|
  {
    var freed :- ReleaseFrom(db, r, |db.reservations[r].items|, 0);
    Ok(freed.SetStatus(r, status))
  }

  function CancelTx(db: Db, rid: int): (tx: Tx<Db>) {
    if !(0 <= rid < |db.reservations|) then Err(ReservationNotFound(rid))
    else if db.reservations[rid].status == Cancelled || db.reservations[rid].status == Expired then Ok(db)
    else if db.reservations[rid].status != Pending then Err(ReservationState(rid))
    else CloseTx(db, rid, Cancelled)
  }

  function CancelTxSends(db: Db, rid: int, unsent: set<Call>): multiset<Call> {
    if 0 <= rid < |db.reservations| && db.reservations[rid].status == Pending
    then ReleaseFromSends(db, rid, |db.reservations[rid].items|, 0, unsent)
    else multiset{}
  }

  /** `expire_batch` on the batch its query returned, from the `k`-th reservation on. */
  function SweepFrom(db: Db, batch: seq<nat>, k: nat): (tx: Tx<Db>)
    requires k <= |batch|
    requires forall b | 0 <= b < |batch| :: batch[b] < |db.reservations|
    ensures tx.Ok? ==> |tx.value.reservations| == |db.reservations|
    decreases |batch| - k
  {
    if k == |batch| then Ok(db)
    else
      var next :- CloseTx(db, batch[k], Expired);
      SweepFrom(next, batch, k + 1)
  }

  function SweepFromSends(db: Db, batch: seq<nat>, k: nat, unsent: set<Call>): multiset<Call>
    requires k <= |batch|
    requires forall b | 0 <= b < |batch| :: batch[b] < |db.reservations|
    decreases |batch| - k
  {
    if k == |batch| then multiset{}
    else
      var next := CloseTx(db, batch[k], Expired);
      ReleaseFromSends(db, batch[k], |db.reservations[batch[k]].items|, 0, unsent) +
      if next.Err? then multiset{} else SweepFromSends(next.value, batch, k + 1, unsent)
  }

  function SweepTx(db: Db, batch: seq<nat>): (tx: Tx<Db>)
    requires forall b | 0 <= b < |batch| :: batch[b] < |db.reservations|
  {
    SweepFrom(db, batch, 0)
  }

  // ----- sync -----

  /** What `sync_from_provider` reports besides its writes. */
  datatype SyncReport = SyncReport(updated: nat, errors: seq<string>)

  predicate HasSku(db: Db, row: Inventory) {
    row.productId in db.skus && db.skus[row.productId] != ""
  }

  /** The provider's rows `ids` from the `k`-th on; `outs` answers by row id. */
  function SyncFrom(db: Db, ids: seq<nat>, outs: seq<StockOutcome>, now: int, report: SyncReport, k: nat)
    : (tx: Tx<(Db, SyncReport)>)
    requires |outs| == |db.inventory| && k <= |ids|
    requires forall j | 0 <= j < |ids| :: ids[j] < |outs|
    decreases |ids| - k
  {
    if k == |ids| then Ok((db, report))
    else
      var row := db.inventory[ids[k]];
      if !HasSku(db, row) then SyncFrom(db, ids, outs, now, report, k + 1)
      else
        match outs[ids[k]]
        case Stock(qty) =>
          var synced := row.(qtyAvailable := qty, lastSyncedAt := Some(now));
          SyncFrom(db.(inventory := db.inventory[ids[k] := synced]), ids, outs, now,
                   report.(updated := report.updated + 1), k + 1)
        case StockError(message) =>
          SyncFrom(db, ids, outs, now,
                   report.(errors := report.errors + [db.skus[row.productId] + ": " + message]), k + 1)
        case StockRaised => Err(ProviderRaised)
  }

  function SyncTx(db: Db, pid: int, outs: seq<StockOutcome>, now: int): (tx: Tx<(Db, SyncReport)>)
    requires |outs| == |db.inventory|
  {
    if !(0 <= pid < |db.providers|) then Err(ProviderNotFound(pid))
    else if !db.providers[pid].isActive then Err(ProviderInactive(pid))
    else if db.providers[pid].kind.Internal? then Ok((db, SyncReport(0, [])))
    else
      var ids := GetAllByProvider(db.inventory, pid);
      assert forall j | 0 <= j < |ids| :: ids[j] in ids;
      SyncFrom(db, ids, outs, now, SyncReport(0, []), 0)
  }
}
