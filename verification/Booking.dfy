/** `create` as a whole: exactly when it succeeds, and the state it leaves. */
module Booking {
  import opened Tables
  import opened Schemas
  import opened Transactions
  import opened Operations
  import opened Settlement

  /** How many units of `qtyReserved` one reserved unit costs on a row: `create` counts it,
      and the internal adapter counts it again. */
  function Weight(db: Db, row: nat): int
    requires row < |db.inventory|
  {
    if db.IsInternal(row) then 2 else 1
  }

  predicate RemoteAccepts(out: HoldOutcome) { !out.HoldInsufficient? && !out.HoldRaised? }

  /** The provider of row `id` grants the line, `weight` times over, on the stock that the row shows. */
  predicate Grants(db: Db, id: nat, line: Line, out: HoldOutcome, weight: int)
    requires id < |db.inventory|
  {
    && db.ProviderOf(db.inventory[id].providerId).Some?
    && if db.IsInternal(id) then weight * line.qty <= db.inventory[id].Effective() else RemoteAccepts(out)
  }

  /** The item stored for a line that its provider did not reject. */
  function StoredItem(row: Inventory, isInternal: bool, id: nat, line: Line, out: HoldOutcome): Item {
    var item := NewItem(row, id, line);
    if isInternal || out.NullRef? then item.(status := Held)
    else match out
      case Ref(ref) => item.(status := Held, holdRef := Some(ref))
      case HoldTimedOut(message) => item.(status := ProviderFailed, errorMessage := Some(message))
      case HoldUnavailable(message) => item.(status := ProviderFailed, errorMessage := Some(message))
      case _ => item
  }

  function HeldItem(db: Db, id: nat, line: Line, out: HoldOutcome): Item
    requires id < |db.inventory|
  {
    StoredItem(db.inventory[id], db.IsInternal(id), id, line, out)
  }

  ghost predicate Distinct(ids: seq<nat>) {
    forall i, j | 0 <= i < j < |ids| :: ids[i] != ids[j]
  }

  ghost predicate InRange(ids: seq<nat>, n: nat) {
    forall j | 0 <= j < |ids| :: ids[j] < n
  }

  // ----- Rows rewritten one by one -----

  /** `after` is `before` with `rows[j]` at `ids[j]` for every `j` from `k` on, and nothing else changed. */
  ghost predicate Rewritten(
    before: seq<Inventory>, after: seq<Inventory>, ids: seq<nat>, rows: seq<Inventory>, k: nat)
  {
    && |after| == |before| && |rows| == |ids|
    && (forall j | k <= j < |ids| && ids[j] < |after| :: after[ids[j]] == rows[j])
    && (forall i | 0 <= i < |before| && (forall j | k <= j < |ids| :: ids[j] != i) :: after[i] == before[i])
  }

  lemma RewrittenUnique(
    before: seq<Inventory>, a: seq<Inventory>, b: seq<Inventory>, ids: seq<nat>, rows: seq<Inventory>)
    requires Rewritten(before, a, ids, rows, 0) && Rewritten(before, b, ids, rows, 0)
    ensures a == b
  {
    forall i | 0 <= i < |before| ensures a[i] == b[i] {
      if j :| 0 <= j < |ids| && ids[j] == i {
        assert a[ids[j]] == rows[j] == b[ids[j]];
      }
    }
  }

  function ReservedRows(inventory: seq<Inventory>, ids: seq<nat>, lines: seq<Line>): (rows: seq<Inventory>)
    requires |ids| == |lines| && forall j | 0 <= j < |ids| :: ids[j] < |inventory|
    ensures |rows| == |ids|
  {
    seq(|ids|, j requires 0 <= j < |ids| => inventory[ids[j]].Reserve(lines[j].qty))
  }

  lemma {:induction false} ReserveFromEffect(inventory: seq<Inventory>, ids: seq<nat>, lines: seq<Line>, k: nat)
    requires |ids| == |lines| && k <= |lines| && Distinct(ids) && InRange(ids, |inventory|)
    ensures Rewritten(inventory, ReserveFrom(inventory, ids, lines, k), ids, ReservedRows(inventory, ids, lines), k)
    decreases |lines| - k
  {
    if k < |lines| {
      var next := inventory[ids[k] := inventory[ids[k]].Reserve(lines[k].qty)];
      ReserveFromEffect(next, ids, lines, k + 1);
      var done := ReserveFrom(next, ids, lines, k + 1);
      assert done[ids[k]] == next[ids[k]];
      forall j | k < j < |ids| ensures done[ids[j]] == ReservedRows(inventory, ids, lines)[j] {
        assert ids[k] != ids[j];
      }
    }
  }

  // ----- The provider calls -----

  /** The rows once the internal adapters have counted their holds too. */
  function HeldRows(db: Db, ids: seq<nat>, lines: seq<Line>): (rows: seq<Inventory>)
    requires |ids| == |lines| && forall j | 0 <= j < |ids| :: ids[j] < |db.inventory|
    ensures |rows| == |ids|
  {
    seq(|ids|, j requires 0 <= j < |ids| =>
      if db.IsInternal(ids[j]) then db.inventory[ids[j]].Reserve(lines[j].qty) else db.inventory[ids[j]])
  }

  function HeldItems(db: Db, ids: seq<nat>, lines: seq<Line>, outs: seq<HoldOutcome>, k: nat): (items: seq<Item>)
    requires |ids| == |lines| == |outs| && k <= |ids| && forall j | 0 <= j < |ids| :: ids[j] < |db.inventory|
    ensures |items| == |ids| - k
    ensures forall j | 0 <= j < |items| :: items[j] == HeldItem(db, ids[k + j], lines[k + j], outs[k + j])
  {
    seq(|ids| - k, j requires 0 <= j < |ids| - k => HeldItem(db, ids[k + j], lines[k + j], outs[k + j]))
  }

  /** Phase 5 on one line, in one expression. */
  lemma HoldItemEffect(db: Db, r: nat, id: nat, line: Line, out: HoldOutcome)
    requires r < |db.reservations| && id < |db.inventory|
    ensures HoldItem(db, r, id, line, out).Ok? <==> Grants(db, id, line, out, 1)
    ensures HoldItem(db, r, id, line, out).Ok? ==>
              var rows := if db.IsInternal(id) then db.inventory[id := db.inventory[id].Reserve(line.qty)]
                          else db.inventory;
              HoldItem(db, r, id, line, out).value == AddItem(db.(inventory := rows), r, HeldItem(db, id, line, out))
  {
    if HoldItem(db, r, id, line, out).Ok? && !db.IsInternal(id) {
      assert db.(inventory := db.inventory) == db;
    }
  }

  ghost predicate AllGrant(db: Db, ids: seq<nat>, lines: seq<Line>, outs: seq<HoldOutcome>, k: nat, weight: int)
    requires |ids| == |lines| == |outs| && InRange(ids, |db.inventory|)
  {
    forall j | k <= j < |ids| :: Grants(db, ids[j], lines[j], outs[j], weight)
  }

  lemma HoldStep(db: Db, next: Db, r: nat, ids: seq<nat>, lines: seq<Line>, outs: seq<HoldOutcome>, k: nat)
    requires r < |db.reservations| && |ids| == |lines| == |outs| && k < |ids|
    requires Distinct(ids) && InRange(ids, |db.inventory|)
    requires HoldItem(db, r, ids[k], lines[k], outs[k]) == Ok(next)
    ensures |next.inventory| == |db.inventory| && next.providers == db.providers
    ensures forall j | k < j < |ids| ::
              && next.inventory[ids[j]] == db.inventory[ids[j]]
              && next.IsInternal(ids[j]) == db.IsInternal(ids[j])
              && Grants(next, ids[j], lines[j], outs[j], 1) == Grants(db, ids[j], lines[j], outs[j], 1)
              && HeldItem(next, ids[j], lines[j], outs[j]) == HeldItem(db, ids[j], lines[j], outs[j])
    ensures next.inventory[ids[k]] == HeldRows(db, ids, lines)[k]
    ensures forall i | 0 <= i < |db.inventory| && i != ids[k] :: next.inventory[i] == db.inventory[i]
    ensures next.skus == db.skus && next.orders == db.orders && next.calls == db.calls
    ensures next.reservations == WithItems(db, r, db.reservations[r].items + [HeldItem(db, ids[k], lines[k], outs[k])])
  {
    HoldItemEffect(db, r, ids[k], lines[k], outs[k]);
  }

  /** What the calls from line `k` on leave, in closed form. */
  ghost predicate HeldFrom(
    db: Db, after: Db, r: nat, ids: seq<nat>, lines: seq<Line>, outs: seq<HoldOutcome>, k: nat)
    requires r < |db.reservations| && |ids| == |lines| == |outs| && k <= |ids| && InRange(ids, |db.inventory|)
  {
    && after.skus == db.skus && after.providers == db.providers
    && after.orders == db.orders && after.calls == db.calls
    && Rewritten(db.inventory, after.inventory, ids, HeldRows(db, ids, lines), k)
    && after.reservations == WithItems(db, r, db.reservations[r].items + HeldItems(db, ids, lines, outs, k))
  }

  lemma HeldItemsStep(db: Db, next: Db, ids: seq<nat>, lines: seq<Line>, outs: seq<HoldOutcome>, k: nat)
    requires |ids| == |lines| == |outs| && k < |ids|
    requires InRange(ids, |db.inventory|) && InRange(ids, |next.inventory|)
    requires forall j | k < j < |ids| ::
               HeldItem(next, ids[j], lines[j], outs[j]) == HeldItem(db, ids[j], lines[j], outs[j])
    ensures HeldItems(db, ids, lines, outs, k) ==
            [HeldItem(db, ids[k], lines[k], outs[k])] + HeldItems(next, ids, lines, outs, k + 1)
  {
    var all, rest := HeldItems(db, ids, lines, outs, k), HeldItems(next, ids, lines, outs, k + 1);
    assert all[0] == HeldItem(db, ids[k + 0], lines[k + 0], outs[k + 0]);
    forall j | 0 <= j < |rest| ensures all[j + 1] == rest[j] {
      assert rest[j] == HeldItem(next, ids[k + 1 + j], lines[k + 1 + j], outs[k + 1 + j]);
    }
  }

  lemma ItemsRegroup(db: Db, next: Db, r: nat, item: Item, rest: seq<Item>)
    requires r < |db.reservations| && next.reservations == WithItems(db, r, db.reservations[r].items + [item])
    ensures |next.reservations| == |db.reservations|
    ensures WithItems(next, r, next.reservations[r].items + rest)
         == WithItems(db, r, db.reservations[r].items + ([item] + rest))
  {
    assert next.reservations[r].items + rest == db.reservations[r].items + ([item] + rest);
  }

  lemma RestHolds(db: Db, next: Db, after: Db, r: nat, ids: seq<nat>, lines: seq<Line>, outs: seq<HoldOutcome>, k: nat)
    requires r < |db.reservations| && |ids| == |lines| == |outs| && k < |ids|
    requires Distinct(ids) && InRange(ids, |db.inventory|)
    requires HoldItem(db, r, ids[k], lines[k], outs[k]) == Ok(next)
    requires |next.inventory| == |db.inventory| && HeldFrom(next, after, r, ids, lines, outs, k + 1)
    ensures HeldFrom(db, after, r, ids, lines, outs, k)
  {
    HoldStep(db, next, r, ids, lines, outs, k);
    RewrittenStep(db, next, after.inventory, ids, lines, k);
    HeldItemsStep(db, next, ids, lines, outs, k);
    ItemsRegroup(db, next, r, HeldItem(db, ids[k], lines[k], outs[k]), HeldItems(next, ids, lines, outs, k + 1));
  }

  lemma RestGrants(db: Db, next: Db, r: nat, ids: seq<nat>, lines: seq<Line>, outs: seq<HoldOutcome>, k: nat)
    requires r < |db.reservations| && |ids| == |lines| == |outs| && k < |ids|
    requires Distinct(ids) && InRange(ids, |db.inventory|)
    requires HoldItem(db, r, ids[k], lines[k], outs[k]) == Ok(next)
    ensures |next.inventory| == |db.inventory|
    ensures AllGrant(next, ids, lines, outs, k + 1, 1) <==> AllGrant(db, ids, lines, outs, k, 1)
  {
    HoldItemEffect(db, r, ids[k], lines[k], outs[k]);
    HoldStep(db, next, r, ids, lines, outs, k);
  }

  lemma {:induction false} HoldFromEffect(
    db: Db, r: nat, ids: seq<nat>, lines: seq<Line>, outs: seq<HoldOutcome>, k: nat)
    requires r < |db.reservations| && |ids| == |lines| == |outs| && k <= |ids|
    requires Distinct(ids) && InRange(ids, |db.inventory|)
    ensures HoldFrom(db, r, ids, lines, outs, k).Ok? <==> AllGrant(db, ids, lines, outs, k, 1)
    ensures HoldFrom(db, r, ids, lines, outs, k).Ok? ==>
              HeldFrom(db, HoldFrom(db, r, ids, lines, outs, k).value, r, ids, lines, outs, k)
    decreases |ids| - k
  {
    if k == |ids| {
      assert db.reservations[r].items + HeldItems(db, ids, lines, outs, k) == db.reservations[r].items;
    } else {
      var one := HoldItem(db, r, ids[k], lines[k], outs[k]);
      if one.Ok? {
        RestGrants(db, one.value, r, ids, lines, outs, k);
        HoldFromEffect(one.value, r, ids, lines, outs, k + 1);
        if HoldFrom(db, r, ids, lines, outs, k).Ok? {
          RestHolds(db, one.value, HoldFrom(db, r, ids, lines, outs, k).value, r, ids, lines, outs, k);
        }
      } else {
        HoldItemEffect(db, r, ids[k], lines[k], outs[k]);
      }
    }
  }

  lemma RewrittenStep(db: Db, next: Db, done: seq<Inventory>, ids: seq<nat>, lines: seq<Line>, k: nat)
    requires |ids| == |lines| && k < |ids| && Distinct(ids) && InRange(ids, |db.inventory|)
    requires |next.inventory| == |db.inventory|
    requires next.inventory[ids[k]] == HeldRows(db, ids, lines)[k]
    requires forall i | 0 <= i < |db.inventory| && i != ids[k] :: next.inventory[i] == db.inventory[i]
    requires forall j | k < j < |ids| :: next.IsInternal(ids[j]) == db.IsInternal(ids[j])
    requires Rewritten(next.inventory, done, ids, HeldRows(next, ids, lines), k + 1)
    ensures Rewritten(db.inventory, done, ids, HeldRows(db, ids, lines), k)
  {
    forall j | k < j < |ids| ensures done[ids[j]] == HeldRows(db, ids, lines)[j] {
      assert ids[j] != ids[k];
      assert done[ids[j]] == HeldRows(next, ids, lines)[j];
    }
    assert done[ids[k]] == next.inventory[ids[k]];
  }

  // ----- The whole of create -----

  /** What `create` needs of a line: a row that looked good without a lock, still has the stock under
      the lock, and a provider that grants it. On an internal row that takes the quantity twice over. */
  ghost predicate LineFits(db: Db, line: Line, seen: Option<Read>, out: HoldOutcome) {
    && seen.Some? && line.qty <= seen.value.row.Effective()
    && seen.value.id < |db.inventory| && line.qty <= db.inventory[seen.value.id].Effective()
    && Grants(db, seen.value.id, line, out, 2)
  }

  ghost predicate RequestFits(db: Db, lines: seq<Line>, seen: seq<Option<Read>>, outs: seq<HoldOutcome>)
    requires |seen| == |lines| == |outs|
  {
    forall j | 0 <= j < |lines| :: LineFits(db, lines[j], seen[j], outs[j])
  }

  /** The rows of a request after `create`: each reserved by its weight times its quantity. */
  function BookedRows(db: Db, ids: seq<nat>, lines: seq<Line>): (rows: seq<Inventory>)
    requires |ids| == |lines| && forall j | 0 <= j < |ids| :: ids[j] < |db.inventory|
    ensures |rows| == |ids|
  {
    seq(|ids|, j requires 0 <= j < |ids| => db.inventory[ids[j]].Reserve(Weight(db, ids[j]) * lines[j].qty))
  }

  /** `after` is `db` with a new pending reservation of `items` and those rows reserved. */
  ghost predicate Booked(
    db: Db, after: Db, userId: string, lines: seq<Line>, ids: seq<nat>, expiresAt: int, items: seq<Item>)
    requires |ids| == |lines| && InRange(ids, |db.inventory|)
  {
    && after.skus == db.skus && after.providers == db.providers
    && after.orders == db.orders && after.calls == db.calls
    && Rewritten(db.inventory, after.inventory, ids, BookedRows(db, ids, lines), 0)
    && after.reservations == db.reservations + [Reservation(userId, Pending, expiresAt, items)]
  }

  /** Different products have different rows. */
  lemma DistinctProductsDistinctRows(db: Db, lines: seq<Line>, seen: seq<Option<Read>>, outs: seq<HoldOutcome>)
    requires |seen| == |lines| == |outs| && ValidRequest(lines) && ReadsProducts(db, lines, seen)
    requires forall j | 0 <= j < |lines| :: seen[j].Some? && seen[j].value.id < |db.inventory|
    ensures Distinct(IdsOf(seen))
  {
    NoDuplicatesMeansDistinct(lines);
    var ids := IdsOf(seen);
    forall i, j | 0 <= i < j < |ids| ensures ids[i] != ids[j] {
      assert db.inventory[ids[i]].productId == lines[i].productId;
      assert db.inventory[ids[j]].productId == lines[j].productId;
    }
  }

  /** The state between the phases: reserved once, and the reservation still empty. */
  function Opened(db: Db, userId: string, lines: seq<Line>, ids: seq<nat>, expiresAt: int): Db
    requires |ids| == |lines| && forall j | 0 <= j < |ids| :: ids[j] < |db.inventory|
  {
    InsertReservation(db.(inventory := ReserveFrom(db.inventory, ids, lines, 0)), userId, expiresAt)
  }

  lemma OpenedRows(db: Db, userId: string, lines: seq<Line>, ids: seq<nat>, outs: seq<HoldOutcome>, expiresAt: int)
    requires |ids| == |lines| == |outs| && Distinct(ids) && InRange(ids, |db.inventory|)
    ensures
      var ready := Opened(db, userId, lines, ids, expiresAt);
      && |ready.inventory| == |db.inventory|
      && (forall j | 0 <= j < |ids| ::
            && ready.inventory[ids[j]] == db.inventory[ids[j]].Reserve(lines[j].qty)
            && ready.IsInternal(ids[j]) == db.IsInternal(ids[j])
            && Grants(ready, ids[j], lines[j], outs[j], 1) == Grants(db, ids[j], lines[j], outs[j], 2)
            && HeldItem(ready, ids[j], lines[j], outs[j]) == HeldItem(db, ids[j], lines[j], outs[j])
            && HeldRows(ready, ids, lines)[j] == BookedRows(db, ids, lines)[j])
      && (forall i | 0 <= i < |db.inventory| && (forall j | 0 <= j < |ids| :: ids[j] != i) ::
            ready.inventory[i] == db.inventory[i])
  {
    ReserveFromEffect(db.inventory, ids, lines, 0);
    var ready := Opened(db, userId, lines, ids, expiresAt);
    forall j | 0 <= j < |ids|
      ensures
        && ready.inventory[ids[j]] == db.inventory[ids[j]].Reserve(lines[j].qty)
        && ready.IsInternal(ids[j]) == db.IsInternal(ids[j])
        && Grants(ready, ids[j], lines[j], outs[j], 1) == Grants(db, ids[j], lines[j], outs[j], 2)
        && HeldItem(ready, ids[j], lines[j], outs[j]) == HeldItem(db, ids[j], lines[j], outs[j])
        && HeldRows(ready, ids, lines)[j] == BookedRows(db, ids, lines)[j]
    {
      assert ready.inventory[ids[j]] == ReservedRows(db.inventory, ids, lines)[j];
    }
  }

  lemma HeldEffect(db: Db, userId: string, lines: seq<Line>, ids: seq<nat>, outs: seq<HoldOutcome>, expiresAt: int)
    requires |ids| == |lines| == |outs| && Distinct(ids) && InRange(ids, |db.inventory|)
    ensures
      var tx := HoldFrom(Opened(db, userId, lines, ids, expiresAt), |db.reservations|, ids, lines, outs, 0);
      && (tx.Ok? <==> AllGrant(db, ids, lines, outs, 0, 2))
      && (tx.Ok? ==> Booked(db, tx.value, userId, lines, ids, expiresAt, HeldItems(db, ids, lines, outs, 0)))
  {
    var ready := Opened(db, userId, lines, ids, expiresAt);
    OpenedRows(db, userId, lines, ids, outs, expiresAt);
    HoldFromEffect(ready, |db.reservations|, ids, lines, outs, 0);
    assert AllGrant(ready, ids, lines, outs, 0, 1) <==> AllGrant(db, ids, lines, outs, 0, 2);
    var tx := HoldFrom(ready, |db.reservations|, ids, lines, outs, 0);
    if tx.Ok? {
      assert HeldItems(ready, ids, lines, outs, 0) == HeldItems(db, ids, lines, outs, 0);
      assert HeldRows(ready, ids, lines) == BookedRows(db, ids, lines);
      RewrittenTwice(db.inventory, ready.inventory, tx.value.inventory, ids, BookedRows(db, ids, lines));
      assert [] + HeldItems(db, ids, lines, outs, 0) == HeldItems(db, ids, lines, outs, 0);
      assert tx.value.reservations == db.reservations +
             [Reservation(userId, Pending, expiresAt, HeldItems(db, ids, lines, outs, 0))];
    }
  }

  lemma RewrittenTwice(
    before: seq<Inventory>, mid: seq<Inventory>, after: seq<Inventory>, ids: seq<nat>, rows: seq<Inventory>)
    requires |mid| == |before| && Rewritten(mid, after, ids, rows, 0)
    requires forall i | 0 <= i < |before| && (forall j | 0 <= j < |ids| :: ids[j] != i) :: mid[i] == before[i]
    ensures Rewritten(before, after, ids, rows, 0)
  {}

  /** `create` succeeds exactly when every line fits, and then it leaves exactly the booked state. */
  lemma CreateEffect(
    db: Db, userId: string, lines: seq<Line>, seen: seq<Option<Read>>, outs: seq<HoldOutcome>, expiresAt: int)
    requires |seen| == |lines| == |outs| && ValidRequest(lines) && ReadsProducts(db, lines, seen)
    ensures CreateTx(db, userId, lines, seen, outs, expiresAt).Ok? <==> RequestFits(db, lines, seen, outs)
    ensures CreateTx(db, userId, lines, seen, outs, expiresAt).Ok? ==>
              && InRange(IdsOf(seen), |db.inventory|) && Distinct(IdsOf(seen))
              && Booked(db, CreateTx(db, userId, lines, seen, outs, expiresAt).value,
                        userId, lines, IdsOf(seen), expiresAt, HeldItems(db, IdsOf(seen), lines, outs, 0))
  {
    if PreflightError(seen, lines, 0).None? {
      var ids := IdsOf(seen);
      if LockError(db.inventory, ids, lines, 0).None? {
        DistinctProductsDistinctRows(db, lines, seen, outs);
        HeldEffect(db, userId, lines, ids, outs, expiresAt);
        FitsWhenAllGrant(db, lines, seen, outs);
      }
    }
  }

  lemma FitsWhenAllGrant(db: Db, lines: seq<Line>, seen: seq<Option<Read>>, outs: seq<HoldOutcome>)
    requires |seen| == |lines| == |outs|
    requires PreflightError(seen, lines, 0).None? && LockError(db.inventory, IdsOf(seen), lines, 0).None?
    ensures RequestFits(db, lines, seen, outs) <==> AllGrant(db, IdsOf(seen), lines, outs, 0, 2)
  {
    forall j | 0 <= j < |lines|
      ensures LineFits(db, lines[j], seen[j], outs[j]) <==> Grants(db, IdsOf(seen)[j], lines[j], outs[j], 2)
    {}
  }
}
