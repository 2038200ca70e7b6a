/** Sweeps that run side by side, and sweeps that run until nothing is left. */
module Sweeps {
  import opened Tables
  import opened Queries
  import opened Transactions
  import opened Operations
  import opened Ledger
  import opened Settlement

  ghost predicate Disjoint(a: seq<nat>, b: seq<nat>) {
    forall i, j | 0 <= i < |a| && 0 <= j < |b| :: a[i] != b[j]
  }

  lemma SameStockBetween(a: Db, b: Db, c: Db)
    requires SameStock(a, b) && SameStock(a, c)
    ensures SameStock(b, c)
  {
    forall i | 0 <= i < |b.inventory|
      ensures StockBase(c, i) == StockBase(b, i) && c.inventory[i].lastSyncedAt == b.inventory[i].lastSyncedAt
    {
      assert StockBase(b, i) == StockBase(a, i);
    }
  }

  /** After one sweep, a disjoint batch is still there to be swept; together they expire the union. */
  lemma SweepAfterSweep(init: seq<Inventory>, db: Db, a: seq<nat>, b: seq<nat>)
    requires Inv(init, db) && PendingFrom(db, a, 0) && PendingFrom(db, b, 0) && Disjoint(a, b)
    ensures SweepTx(db, a).Ok? && |SweepTx(db, a).value.reservations| == |db.reservations|
    ensures SweepTx(SweepTx(db, a).value, b).Ok?
    ensures
      var after := SweepTx(SweepTx(db, a).value, b).value;
      && Inv(init, after) && SameStock(db, after) && after.orders == db.orders
      && after.reservations == Swept(db.reservations, IdsFrom(a, 0) + IdsFrom(b, 0))
  {
    SweepEffect(init, db, a);
    var mid := SweepTx(db, a).value;
    forall j | 0 <= j < |b| ensures mid.reservations[b[j]].status == Pending {
      assert b[j] !in IdsFrom(a, 0);
    }
    SweepEffect(init, mid, b);
    SameStockTransitive(db, mid, SweepTx(mid, b).value);
    SweptTwice(db.reservations, IdsFrom(a, 0), IdsFrom(b, 0));
  }

  lemma SweptTwice(rs: seq<Reservation>, a: set<nat>, b: set<nat>)
    requires a !! b
    ensures Swept(Swept(rs, a), b) == Swept(rs, a + b)
  {}

  /** Two sweeps of disjoint batches give the same database in either order, and the same as one sweep of
      both: the clamp at zero, which alone would not commute, never acts. */
  lemma SweepsCommute(init: seq<Inventory>, db: Db, a: seq<nat>, b: seq<nat>)
    requires Inv(init, db) && PendingFrom(db, a, 0) && PendingFrom(db, b, 0) && Disjoint(a, b)
    ensures SweepTx(db, a).Ok? && |SweepTx(db, a).value.reservations| == |db.reservations|
    ensures SweepTx(db, b).Ok? && |SweepTx(db, b).value.reservations| == |db.reservations|
    ensures SweepTx(SweepTx(db, a).value, b).Ok?
    ensures SweepTx(SweepTx(db, a).value, b) == SweepTx(SweepTx(db, b).value, a) == SweepTx(db, a + b)
  {
    SweepAfterSweep(init, db, a, b);
    SweepAfterSweep(init, db, b, a);
    var ab, ba := SweepTx(SweepTx(db, a).value, b).value, SweepTx(SweepTx(db, b).value, a).value;
    BothPending(db, a, b);
    SweepEffect(init, db, a + b);
    var both := SweepTx(db, a + b).value;
    assert IdsFrom(a + b, 0) == IdsFrom(a, 0) + IdsFrom(b, 0) by {
      IdsOfBoth(a, b);
    }
    assert IdsFrom(b, 0) + IdsFrom(a, 0) == IdsFrom(a, 0) + IdsFrom(b, 0);
    SameStockBetween(db, ab, ba);
    BooksDetermineCounters(init, ab, ba);
    SameStockBetween(db, ab, both);
    BooksDetermineCounters(init, ab, both);
  }

  /** The order of a batch does not matter, only which reservations it has. */
  lemma BatchOrderIsIrrelevant(init: seq<Inventory>, db: Db, a: seq<nat>, b: seq<nat>)
    requires Inv(init, db) && PendingFrom(db, a, 0) && PendingFrom(db, b, 0) && IdsFrom(a, 0) == IdsFrom(b, 0)
    ensures SweepTx(db, a).Ok? && SweepTx(db, a) == SweepTx(db, b)
  {
    SweepEffect(init, db, a);
    SweepEffect(init, db, b);
    SameStockBetween(db, SweepTx(db, a).value, SweepTx(db, b).value);
    BooksDetermineCounters(init, SweepTx(db, a).value, SweepTx(db, b).value);
  }

  lemma BothPending(db: Db, a: seq<nat>, b: seq<nat>)
    requires PendingFrom(db, a, 0) && PendingFrom(db, b, 0) && Disjoint(a, b)
    ensures PendingFrom(db, a + b, 0)
  {}

  lemma IdsOfBoth(a: seq<nat>, b: seq<nat>)
    ensures IdsFrom(a + b, 0) == IdsFrom(a, 0) + IdsFrom(b, 0)
  {
    forall r ensures r in IdsFrom(a + b, 0) <==> r in IdsFrom(a, 0) + IdsFrom(b, 0) {
      if r in IdsFrom(a, 0) {
        var i :| 0 <= i < |a| && a[i] == r;
        assert (a + b)[i] == r;
      }
      if r in IdsFrom(b, 0) {
        var i :| 0 <= i < |b| && b[i] == r;
        assert (a + b)[|a| + i] == r;
      }
    }
  }

  /** Replicas sweeping at once: whatever batch one has locked, and whatever the other's query then picks,
      neither raises, and the order of their work does not matter. */
  lemma ConcurrentSweeps(init: seq<Inventory>, db: Db, now: int, limitA: nat, limitB: nat, a: seq<nat>, b: seq<nat>)
    requires Inv(init, db)
    requires IsBatch(db, now, limitA, {}, a) && IsBatch(db, now, limitB, IdsFrom(a, 0), b)
    ensures SweepTx(db, a).Ok? && |SweepTx(db, a).value.reservations| == |db.reservations|
    ensures SweepTx(db, b).Ok? && |SweepTx(db, b).value.reservations| == |db.reservations|
    ensures SweepTx(SweepTx(db, a).value, b).Ok? && SweepsExpired(db, now, a + b)
    ensures SweepTx(SweepTx(db, a).value, b) == SweepTx(SweepTx(db, b).value, a) == SweepTx(db, a + b)
  {
    hide Inv, SweepTx;
    BatchIsExpired(db, now, limitA, {}, a);
    BatchIsExpired(db, now, limitB, IdsFrom(a, 0), b);
    forall i, j | 0 <= i < |a| && 0 <= j < |b| ensures a[i] != b[j] {
      assert b[j] in FreeExpired(db, now, IdsFrom(a, 0), |db.reservations|);
    }
    SweepsCommute(init, db, a, b);
  }

  // ----- Draining -----

  /** All expired pending reservations. */
  function Backlog(db: Db, now: int): set<nat> {
    ExpiredPending(db, now, |db.reservations|)
  }

  lemma {:induction false} BatchSize(batch: seq<nat>)
    requires forall b, c | 0 <= b < c < |batch| :: batch[b] != batch[c]
    ensures |IdsFrom(batch, 0)| == |batch|
  {
    if batch == [] {
      assert IdsFrom(batch, 0) == {};
    } else {
      var last := |batch| - 1;
      BatchSize(batch[..last]);
      assert batch[..last] + [batch[last]] == batch;
      IdsOfBoth(batch[..last], [batch[last]]);
      assert IdsFrom([batch[last]], 0) == {batch[last]} by {
        assert [batch[last]][0] == batch[last];
      }
      assert batch[last] !in IdsFrom(batch[..last], 0);
    }
  }

  lemma SweptBacklog(db: Db, after: Db, now: int, ids: set<nat>)
    requires after.reservations == Swept(db.reservations, ids)
    ensures Backlog(after, now) == Backlog(db, now) - ids
  {
    forall r: nat ensures r in Backlog(after, now) <==> r in Backlog(db, now) - ids {}
  }

  lemma BatchIsExpired(db: Db, now: int, limit: nat, locked: set<nat>, batch: seq<nat>)
    requires IsBatch(db, now, limit, locked, batch)
    ensures SweepsExpired(db, now, batch) && PendingFrom(db, batch, 0)
    ensures IdsFrom(batch, 0) <= Backlog(db, now)
    ensures locked == {} ==> |batch| == if |Backlog(db, now)| < limit then |Backlog(db, now)| else limit
  {
    var free := FreeExpired(db, now, locked, |db.reservations|);
    assert forall b | 0 <= b < |batch| :: batch[b] in free && IsExpiredPending(db, now, batch[b]);
    if locked == {} {
      assert free == Backlog(db, now);
    }
  }

  /** One sweep takes exactly its batch off the expired pending reservations. */
  lemma SweepShrinks(
    init: seq<Inventory>, db: Db, now: int, limit: nat, batch: seq<nat>, unsent: set<Call>)
    requires Inv(init, db) && IsBatch(db, now, limit, {}, batch)
    ensures ValidOp(db, Sweep(now, batch, unsent)) && Inv(init, Apply(db, Sweep(now, batch, unsent)))
    ensures |Backlog(Apply(db, Sweep(now, batch, unsent)), now)| == Left(|Backlog(db, now)|, limit)
  {
    BatchIsExpired(db, now, limit, {}, batch);
    SweepEffect(init, db, batch);
    SweptBacklog(db, Apply(db, Sweep(now, batch, unsent)), now, IdsFrom(batch, 0));
    BatchSize(batch);
  }

  /** What is left of `n` when up to `taken` of them are taken. */
  function Left(n: nat, taken: int): int {
    if n < taken then 0 else n - taken
  }

  /** Sweeps at one instant, one after another, each taking whatever batch its query picked. */
  ghost predicate IsSweepRun(trace: seq<Db>, now: int, limit: nat, batches: seq<seq<nat>>, unsent: set<Call>) {
    && |trace| == |batches| + 1
    && forall i | 0 <= i < |batches| ::
         && IsBatch(trace[i], now, limit, {}, batches[i])
         && ValidOp(trace[i], Sweep(now, batches[i], unsent))
         && trace[i + 1] == Apply(trace[i], Sweep(now, batches[i], unsent))
  }

  lemma DrainStep(
    init: seq<Inventory>, trace: seq<Db>, now: int, limit: nat, batches: seq<seq<nat>>, unsent: set<Call>, i: nat)
    requires IsSweepRun(trace, now, limit, batches, unsent) && i < |batches| && Inv(init, trace[i])
    ensures Inv(init, trace[i + 1])
    ensures |Backlog(trace[i + 1], now)| == Left(|Backlog(trace[i], now)|, limit)
  {
    SweepShrinks(init, trace[i], now, limit, batches[i], unsent);
  }

  /** After `m` sweeps with a limit, `m * limit` expired reservations are gone, or all of them. */
  lemma {:induction false} SweepsDrain(
    init: seq<Inventory>, trace: seq<Db>, now: int, limit: nat, batches: seq<seq<nat>>, unsent: set<Call>, m: nat)
    requires IsSweepRun(trace, now, limit, batches, unsent) && m < |trace| && Inv(init, trace[0])
    ensures Inv(init, trace[m])
    ensures |Backlog(trace[m], now)| == Left(|Backlog(trace[0], now)|, m * limit)
  {
    if m > 0 {
      SweepsDrain(init, trace, now, limit, batches, unsent, m - 1);
      DrainStep(init, trace, now, limit, batches, unsent, m - 1);
      LeftTwice(|Backlog(trace[0], now)|, limit, m);
    }
  }

  lemma LeftTwice(n: nat, limit: nat, m: nat)
    requires m > 0
    ensures 0 <= Left(n, (m - 1) * limit) ==> Left(Left(n, (m - 1) * limit), limit) == Left(n, m * limit)
  {
    assert m * limit == (m - 1) * limit + limit;
  }

  /** ceil(n / limit) */
  function SweepsNeeded(n: nat, limit: nat): nat
    requires limit >= 1
  {
    (n + limit - 1) / limit
  }

  lemma CeilingCovers(n: nat, limit: nat, m: nat)
    requires limit >= 1
    ensures n <= m * limit <==> SweepsNeeded(n, limit) <= m
  {
    var c := SweepsNeeded(n, limit);
    assert c * limit <= n + limit - 1 < c * limit + limit;
    if c <= m {
      assert c * limit <= m * limit;
    } else {
      assert (m + 1) * limit <= c * limit;
      assert (m + 1) * limit == m * limit + limit;
    }
  }

  /** The backlog is gone after ceil(N / limit) sweeps, and not before. */
  lemma DrainTime(
    init: seq<Inventory>, trace: seq<Db>, now: int, limit: nat, batches: seq<seq<nat>>, unsent: set<Call>, m: nat)
    requires IsSweepRun(trace, now, limit, batches, unsent) && m < |trace| && Inv(init, trace[0]) && limit >= 1
    ensures Backlog(trace[m], now) == {} <==> SweepsNeeded(|Backlog(trace[0], now)|, limit) <= m
  {
    SweepsDrain(init, trace, now, limit, batches, unsent, m);
    CeilingCovers(|Backlog(trace[0], now)|, limit, m);
  }
}
