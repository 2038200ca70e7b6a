/** The repository queries: each is one expression over the tables. */
module Queries {
  import opened Tables

  /** `r` is an answer that ordering by effective stock, descending, and taking one row allows. */
  ghost predicate IsBest(inventory: seq<Inventory>, productId: int, r: Option<nat>) {
    match r
    case None => forall i | 0 <= i < |inventory| :: inventory[i].productId != productId
    case Some(b) =>
      && b < |inventory| && inventory[b].productId == productId
      && forall i | 0 <= i < |inventory| && inventory[i].productId == productId ::
           inventory[i].Effective() <= inventory[b].Effective()
  }

  /** The row of a product with the highest effective stock; the database leaves ties open, here the first one wins. */
  function GetBestAvailable(inventory: seq<Inventory>, productId: int): (r: Option<nat>)
    ensures IsBest(inventory, productId, r)
  {
    if inventory == [] then None
    else
      var last := |inventory| - 1;
      var best := GetBestAvailable(inventory[..last], productId);
      if inventory[last].productId != productId then best
      else if best.None? || inventory[best.value].Effective() < inventory[last].Effective() then Some(last)
      else best
  }

  function CountOrders(orders: seq<Order>, reservationId: nat): nat {
    if orders == [] then 0
    else
      var last := |orders| - 1;
      CountOrders(orders[..last], reservationId) + if orders[last].reservationId == reservationId then 1 else 0
  }

  predicate HasOrder(orders: seq<Order>, reservationId: nat) {
    exists o | 0 <= o < |orders| :: orders[o].reservationId == reservationId
  }

  lemma {:induction false} HasOrderCounts(orders: seq<Order>, reservationId: nat)
    ensures HasOrder(orders, reservationId) <==> CountOrders(orders, reservationId) > 0
  {
    if orders != [] {
      var last := |orders| - 1;
      HasOrderCounts(orders[..last], reservationId);
      assert forall o | 0 <= o < last :: orders[..last][o] == orders[o];
    }
  }

  predicate IsExpiredPending(db: Db, now: int, r: nat) {
    r < |db.reservations| && db.reservations[r].status == Pending && db.reservations[r].expiresAt < now
  }

  /** The ids of the expired pending reservations among the first `n`. */
  function ExpiredPending(db: Db, now: int, n: nat): (s: set<nat>)
    requires n <= |db.reservations|
    ensures forall r: nat :: r in s <==> r < n && IsExpiredPending(db, now, r)
  {
    set r: nat | r < n && IsExpiredPending(db, now, r)
  }

  /** The unlocked ones among them. */
  function FreeExpired(db: Db, now: int, locked: set<nat>, n: nat): set<nat>
    requires n <= |db.reservations|
  {
    ExpiredPending(db, now, n) - locked
  }

  lemma FreeExpiredStep(db: Db, now: int, locked: set<nat>, n: nat)
    requires 0 < n <= |db.reservations|
    ensures FreeExpired(db, now, locked, n) ==
            FreeExpired(db, now, locked, n - 1) +
            if IsExpiredPending(db, now, n - 1) && n - 1 !in locked then {n - 1} else {}
    ensures n - 1 !in FreeExpired(db, now, locked, n - 1)
  {}

  ghost predicate PicksFrom(batch: seq<nat>, free: set<nat>, limit: nat) {
    && (forall b | 0 <= b < |batch| :: batch[b] in free)
    && (forall b, c | 0 <= b < c < |batch| :: batch[b] != batch[c])
    && |batch| == if |free| < limit then |free| else limit
  }

  /** The first `limit` unlocked expired pending reservations among the first `n`, in id order. */
  function FirstExpired(db: Db, now: int, limit: nat, locked: set<nat>, n: nat): (batch: seq<nat>)
    requires n <= |db.reservations|
    ensures PicksFrom(batch, FreeExpired(db, now, locked, n), limit)
  {
    if n == 0 then []
    else
      var rest := FirstExpired(db, now, limit, locked, n - 1);
      FreeExpiredStep(db, now, locked, n);
      if IsExpiredPending(db, now, n - 1) && n - 1 !in locked && |rest| < limit then rest + [n - 1] else rest
  }

  /** `batch` is an answer that FOR UPDATE SKIP LOCKED LIMIT allows: distinct expired pending
      reservations that nobody has locked, as many as the limit admits. */
  ghost predicate IsBatch(db: Db, now: int, limit: nat, locked: set<nat>, batch: seq<nat>) {
    PicksFrom(batch, FreeExpired(db, now, locked, |db.reservations|), limit)
  }

  function GetExpiredPending(db: Db, now: int, limit: nat, locked: set<nat>): (batch: seq<nat>)
    ensures IsBatch(db, now, limit, locked, batch)
  {
    FirstExpired(db, now, limit, locked, |db.reservations|)
  }

  /** The rows of a provider, in id order. */
  function GetAllByProvider(inventory: seq<Inventory>, providerId: nat): (ids: seq<nat>)
    ensures forall i :: i in ids <==> 0 <= i < |inventory| && inventory[i].providerId == providerId
    ensures forall a, b | 0 <= a < b < |ids| :: ids[a] < ids[b]
  {
    if inventory == [] then []
    else
      var last := |inventory| - 1;
      var rest := GetAllByProvider(inventory[..last], providerId);
      assert forall a | 0 <= a < |rest| :: rest[a] in rest;
      if inventory[last].providerId == providerId then rest + [last] else rest
  }
}
