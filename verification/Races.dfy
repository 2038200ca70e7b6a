/** What goes wrong when a sweep closes a reservation behind the back of a `confirm`: one execution, step by step. */
module Races {
  import opened Tables
  import opened Schemas
  import opened Transactions
  import opened Operations
  import opened Settlement
  import opened Runs
  import opened Closers
  import opened Sweepers
  import opened Interleaving

  /** One unit or more of one product, at an external provider, for one user. */
  datatype Sale = Sale(stock: int, qty: int, userId: string, expiresAt: int)
  {
    ghost predicate Valid() { 0 < qty <= stock && qty <= 1000 }

    function Lines(): seq<Line> { [Line(1, qty)] }

    function Booking(): Reservation {
      Reservation(userId, Pending, expiresAt, [Item(1, 0, 0, qty, Held, None, None)])
    }

    /** The `create`, with its row as it sees it. */
    function Making(rows: seq<Inventory>, items: seq<Item>, outs: seq<HoldOutcome>): Creating {
      Creating(userId, Lines(), expiresAt, [Some(Read(0, Row(stock, 0)))], [0], rows, items, outs)
    }

    /** The `confirm`, which reads its reservation in time. */
    function Selling(rows: seq<Inventory>, answers: seq<ConfirmOutcome>): Closing {
      Closing(0, ToConfirm(expiresAt, answers), Booking(), rows)
    }

    /** The sweep, which comes a moment later. */
    function Sweeping(done: nat, rows: map<nat, Inventory>): Sweeper {
      Sweeper(expiresAt + 1, [0], {}, [Booking()], done, rows)
    }

    // The committed databases: with stock only; reserved; swept; and then confirmed all the same.

    function Stocked(): Db { Shop(Row(stock, 0), [], []) }

    function Reserved(): Db { Shop(Row(stock, qty), [Booking()], []) }

    function Swept(): Db { Shop(Row(stock, 0), [Closed(Booking(), Expired)], []) }

    function Sold(): Db {
      Shop(Row(stock - qty, -qty), [Closed(Closed(Booking(), Expired), Confirmed)], [Order(0, userId)])
    }

    /** Step `n` of the execution: the first transaction creates and confirms, the second one sweeps. */
    function StepAt(n: nat): Step {
      match n
      case 0 => Step(0, BeginCreate(userId, Lines(), expiresAt))
      case 1 => Step(0, Preflight([Some(Read(0, Row(stock, 0)))]))
      case 2 => Step(0, LockRow)
      case 3 => Step(0, ReserveRows)
      case 4 => Step(0, HoldStock(NullRef))
      case 5 => Step(0, CommitCreate)
      case 6 => Step(0, BeginClose(0, ToConfirm(expiresAt, [])))
      case 7 => Step(0, ReadReservation)
      case 8 => Step(1, PickBatch(expiresAt + 1, [0], {}))
      case 9 => Step(1, ReleaseStock)
      case 10 => Step(1, CommitSweep)
      case 11 => Step(0, SettleItem(Answered))
      case 12 => Step(0, FlushOrder)
      case _ => Step(0, CommitConfirm)
    }

    function History(n: nat): seq<Db> {
      [Stocked()]
      + (if n > 5 then [Reserved()] else [])
      + (if n > 10 then [Swept()] else [])
      + (if n > 13 then [Sold()] else [])
    }

    function Log(n: nat): seq<Op> {
      (if n > 5 then [CreateOp(Making([], [], [NullRef]))] else [])
      + (if n > 10 then [SweepOp(Sweeping(0, map[]))] else [])
      + (if n > 13 then [CloseOp(Selling([], [Answered]))] else [])
    }

    function First(n: nat): Txn {
      match n
      case 1 => Reading(userId, Lines(), expiresAt)
      case 2 => Locking(Making([], [], []))
      case 3 => Locking(Making([Row(stock, 0)], [], []))
      case 4 => Holding(Making([Row(stock, qty)], [], []))
      case 5 => Holding(Making([Row(stock, qty)], Booking().items, [NullRef]))
      case 7 => Starting(0, ToConfirm(expiresAt, []))
      case 8 => Settling(Selling([], []))
      case 9 => Settling(Selling([], []))
      case 10 => Settling(Selling([], []))
      case 11 => Settling(Selling([], []))
      case 12 => Settling(Selling([Row(stock - qty, -qty)], [Answered]))
      case 13 => Inserted(Selling([Row(stock - qty, -qty)], [Answered]))
      case _ => Idle
    }

    function Second(n: nat): Txn {
      match n
      case 9 => Txn.Sweeping(Sweeping(0, map[]))
      case 10 => Txn.Sweeping(Sweeping(1, map[0 := Row(stock, 0)]))
      case _ => Idle
    }

    /** The system before step `n`. */
    function At(n: nat): Sys { Sys(History(n), Log(n), [First(n), Second(n)]) }
  }

  function Row(available: int, reserved: int): Inventory { Inventory(1, 0, available, reserved, None) }

  function Shop(row: Inventory, reservations: seq<Reservation>, orders: seq<Order>): Db {
    Db(map[1 := "A"], [Provider(External, true)], [row], reservations, orders, multiset{})
  }

  /** Step `n` can be taken, and leads on to the next state. */
  ghost predicate GoesOn(c: Sale, n: nat) {
    && c.StepAt(n).t < 2 && Enabled(c.At(n), c.StepAt(n).t, c.StepAt(n).action)
    && c.At(n + 1) == Next(c.At(n), c.StepAt(n).t, c.StepAt(n).action)
  }

  lemma Begins(c: Sale)
    requires c.Valid()
    ensures GoesOn(c, 0) && GoesOn(c, 1)
  {
    NoDuplicatesMeansDistinct(c.Lines());
    assert IdsOf([Some(Read(0, Row(c.stock, 0)))]) == [0];
    assert After(c.At(0), 0, c.StepAt(0).action) == c.First(1);
    assert c.At(0).txns[0 := c.First(1)] == c.At(1).txns;
    assert After(c.At(1), 0, c.StepAt(1).action) == c.First(2);
    assert c.At(1).txns[0 := c.First(2)] == c.At(2).txns;
  }

  lemma Locks(c: Sale)
    requires c.Valid()
    ensures GoesOn(c, 2)
  {
    assert [] + [Row(c.stock, 0)] == [Row(c.stock, 0)];
    assert After(c.At(2), 0, LockRow) == c.First(3);
    assert c.At(2).txns[0 := c.First(3)] == c.At(3).txns;
  }

  lemma Reserves(c: Sale)
    requires c.Valid()
    ensures GoesOn(c, 3)
  {
    assert Interleaving.Reserved(c.Making([Row(c.stock, 0)], [], [])).rows == [Row(c.stock, c.qty)];
    assert After(c.At(3), 0, ReserveRows) == c.First(4);
    assert c.At(3).txns[0 := c.First(4)] == c.At(4).txns;
  }

  lemma Holds(c: Sale)
    requires c.Valid()
    ensures GoesOn(c, 4)
  {
    assert [] + c.Booking().items == c.Booking().items;
    assert After(c.At(4), 0, HoldStock(NullRef)) == c.First(5);
    assert c.At(4).txns[0 := c.First(5)] == c.At(5).txns;
  }

  lemma CommitsCreate(c: Sale)
    requires c.Valid()
    ensures GoesOn(c, 5)
  {
    var making := c.Making([Row(c.stock, c.qty)], c.Booking().items, [NullRef]);
    assert WriteRows([Row(c.stock, 0)], [0], [Row(c.stock, c.qty)], 0) == [Row(c.stock, c.qty)] by {
      assert [Row(c.stock, 0)][0 := Row(c.stock, c.qty)] == [Row(c.stock, c.qty)];
    }
    assert Created(c.Stocked(), making) == c.Reserved();
    assert c.At(5).txns[0 := Idle] == c.At(6).txns;
  }

  lemma Reads(c: Sale)
    requires c.Valid()
    ensures GoesOn(c, 6) && GoesOn(c, 7)
  {
    assert c.At(6).txns[0 := c.First(7)] == c.At(7).txns;
    assert After(c.At(7), 0, ReadReservation) == c.First(8);
    assert c.At(7).txns[0 := c.First(8)] == c.At(8).txns;
  }

  lemma Picks(c: Sale)
    requires c.Valid()
    ensures GoesOn(c, 8)
  {
    assert Picked(c.Reserved(), c.expiresAt + 1, [0], {}) == c.Sweeping(0, map[]);
    assert c.At(8).txns[1 := c.Second(9)] == c.At(9).txns;
  }

  lemma OneItem(c: Sale)
    ensures ItemsFrom([c.Booking()], 0) == c.Booking().items
    ensures SettlingCalls(ReleaseHold, 0, c.Booking().items, 0) == multiset{}
    ensures SettlingCalls(ConfirmHold, 0, c.Booking().items, 0) == multiset{}
    ensures BatchCalls([0], [c.Booking()], 0) == multiset{}
  {
    var items := c.Booking().items;
    assert ItemsFrom([c.Booking()], 1) == [] && items + [] == items;
    assert SettlingCalls(ReleaseHold, 0, items, 1) == SettlingCalls(ConfirmHold, 0, items, 1) == multiset{};
    assert BatchCalls([0], [c.Booking()], 1) == multiset{};
  }

  lemma Releases(c: Sale)
    requires c.Valid()
    ensures GoesOn(c, 9)
  {
    OneItem(c);
    assert ReleasedOne(c.Reserved(), c.Sweeping(0, map[])) == c.Sweeping(1, map[0 := Row(c.stock, 0)]);
    assert c.At(9).txns[1 := c.Second(10)] == c.At(10).txns;
  }

  lemma CommitsSweep(c: Sale)
    requires c.Valid()
    ensures GoesOn(c, 10)
  {
    var w := c.Sweeping(1, map[0 := Row(c.stock, 0)]);
    OneItem(c);
    assert IdsFrom([0], 0) == {0} by {
      assert [0][0] == 0;
    }
    assert SweptDb(c.Reserved(), w).reservations == c.Swept().reservations;
    assert SweptDb(c.Reserved(), w).inventory == [Row(c.stock, 0)];
    assert SweptDb(c.Reserved(), w) == c.Swept();
    assert c.At(10).txns[1 := Idle] == c.At(11).txns;
  }

  lemma Settles(c: Sale)
    requires c.Valid()
    ensures GoesOn(c, 11)
  {
    var f := c.Selling([], []);
    assert Row(c.stock, 0).Consume(c.qty) == Row(c.stock - c.qty, -c.qty);
    assert f.rows + [Row(c.stock - c.qty, -c.qty)] == [Row(c.stock - c.qty, -c.qty)] && [] + [Answered] == [Answered];
    assert SettledNext(c.Swept(), f, Answered) == c.Selling([Row(c.stock - c.qty, -c.qty)], [Answered]);
    assert c.At(11).txns[0 := c.First(12)] == c.At(12).txns;
  }

  lemma Flushes(c: Sale)
    requires c.Valid()
    ensures GoesOn(c, 12)
  {
    assert c.At(12).txns[0 := c.First(13)] == c.At(13).txns;
  }

  lemma CommitsConfirm(c: Sale)
    requires c.Valid()
    ensures GoesOn(c, 13)
  {
    var f := c.Selling([Row(c.stock - c.qty, -c.qty)], [Answered]);
    assert RowsOf(f.res.items) == [0];
    assert WriteRows([Row(c.stock, 0)], [0], f.rows, 0) == f.rows by {
      assert [Row(c.stock, 0)][0 := f.rows[0]] == f.rows;
    }
    OneItem(c);
    assert ClosedDb(c.Swept(), f) == c.Sold();
    assert c.At(13).txns[0 := Idle] == c.At(14).txns;
  }

  lemma EveryStep(c: Sale, n: nat)
    requires c.Valid() && n < 14
    ensures GoesOn(c, n)
  {
    hide GoesOn;
    match n
    case 0 => Begins(c);
    case 1 => Begins(c);
    case 2 => Locks(c);
    case 3 => Reserves(c);
    case 4 => Holds(c);
    case 5 => CommitsCreate(c);
    case 6 => Reads(c);
    case 7 => Reads(c);
    case 8 => Picks(c);
    case 9 => Releases(c);
    case 10 => CommitsSweep(c);
    case 11 => Settles(c);
    case 12 => Flushes(c);
    case _ => CommitsConfirm(c);
  }

  lemma Plays(c: Sale) returns (states: seq<Sys>, steps: seq<Step>)
    requires c.Valid()
    ensures IsExecution(states, steps) && |steps| == 14
    ensures forall n: nat | n <= 14 :: states[n] == c.At(n)
    ensures forall n: nat | n < 14 :: steps[n] == c.StepAt(n)
  {
    states := seq(15, n requires 0 <= n < 15 => c.At(n));
    steps := seq(14, n requires 0 <= n < 14 => c.StepAt(n));
    hide Enabled, Next;
    forall n | 0 <= n < 14
      ensures states[n].history != [] && steps[n].t < |states[n].txns|
      ensures Enabled(states[n], steps[n].t, steps[n].action)
      ensures states[n + 1] == Next(states[n], steps[n].t, steps[n].action)
    {
      EveryStep(c, n);
      assert states[n] == c.At(n) && states[n + 1] == c.At(n + 1) && steps[n] == c.StepAt(n);
    }
    assert states[0] == c.At(0);
    assert |states[0].history| == 1 && Empty(states[0].history[0]) && states[0].log == [];
  }

  lemma OnlyTheEndSpoils(c: Sale, n: nat)
    requires c.Valid() && n < 14 && c.StepAt(n).t < 2
    ensures Spoils(c.At(n), c.StepAt(n).t, c.StepAt(n).action) <==> n == 13
  {
    if n == 13 {
      assert Committed(c.At(13)) == c.Swept();
    }
  }

  /** A sweep expires the reservation between the read of a `confirm` and its lock. Both commit: the reservation is
      confirmed and sold, and its units have been taken off the reserved ones twice. */
  lemma SweptWhileConfirming(c: Sale) returns (states: seq<Sys>, steps: seq<Step>)
    requires c.Valid()
    ensures IsExecution(states, steps) && |steps| == 14 && Unspoiled(states, steps, 13)
    ensures Spoils(states[13], steps[13].t, steps[13].action)
    ensures Committed(states[0]) == c.Stocked() && Committed(states[13]) == c.Swept()
    ensures Committed(states[14]) == c.Sold() && c.Sold().inventory[0].qtyReserved == -c.qty
  {
    hide Enabled, Next, Spoils;
    states, steps := Plays(c);
    forall n: nat | n < 14 ensures Spoils(states[n], steps[n].t, steps[n].action) <==> n == 13 {
      OnlyTheEndSpoils(c, n);
    }
    assert Committed(c.At(0)) == c.Stocked() && Committed(c.At(13)) == c.Swept() && Committed(c.At(14)) == c.Sold();
  }
}
