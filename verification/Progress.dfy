/** Every request gets through: in any state in order, whatever a request would do alone it can do step by step, as
    long as nobody else has locked a row that it changes. And what fails alone can fail step by step. */
module Progress {
  import opened Tables
  import opened Schemas
  import opened Queries
  import opened Transactions
  import opened Operations
  import opened Ledger
  import opened Settlement
  import opened Booking
  import opened Runs
  import opened Calls
  import opened Closers
  import opened Sweepers
  import opened Interleaving
  import opened Overlaps

  // ----- Steps of one transaction -----

  /** Transaction `t` can take these actions, one after another. */
  ghost predicate CanTake(s: Sys, t: nat, actions: seq<Action>)
    decreases |actions|
  {
    && s.history != [] && t < |s.txns|
    && (actions != [] ==> Enabled(s, t, actions[0]) && CanTake(Next(s, t, actions[0]), t, actions[1..]))
  }

  ghost function Taken(s: Sys, t: nat, actions: seq<Action>): Sys
    requires CanTake(s, t, actions)
    decreases |actions|
  {
    if actions == [] then s else Taken(Next(s, t, actions[0]), t, actions[1..])
  }

  /** The system with transaction `t` where `txn` says. */
  function With(s: Sys, t: nat, txn: Txn): Sys
    requires t < |s.txns|
  {
    s.(txns := s.txns[t := txn])
  }

  /** From there, these actions commit `op` as `after`, and nothing else. */
  ghost predicate GetsThrough(s: Sys, t: nat, txn: Txn, actions: seq<Action>, op: Op, after: Db)
    requires t < |s.txns|
  {
    && CanTake(With(s, t, txn), t, actions)
    && Taken(With(s, t, txn), t, actions) == Sys(s.history + [after], s.log + [op], s.txns[t := Idle])
  }

  lemma OneMore(s: Sys, t: nat, txn: Txn, a: Action, rest: seq<Action>, op: Op, after: Db)
    requires s.history != [] && t < |s.txns| && Enabled(With(s, t, txn), t, a) && !Commits(a)
    requires GetsThrough(s, t, After(With(s, t, txn), t, a), rest, op, after)
    ensures GetsThrough(s, t, txn, [a] + rest, op, after)
  {
    QuietNext(s, t, txn, a);
    hide Enabled, Next, After;
    assert ([a] + rest)[0] == a && ([a] + rest)[1..] == rest;
  }

  lemma QuietNext(s: Sys, t: nat, txn: Txn, a: Action)
    requires s.history != [] && t < |s.txns| && Enabled(With(s, t, txn), t, a) && !Commits(a)
    ensures Next(With(s, t, txn), t, a) == With(s, t, After(With(s, t, txn), t, a))
  {
    assert s.txns[t := txn][t := After(With(s, t, txn), t, a)] == s.txns[t := After(With(s, t, txn), t, a)];
  }

  lemma Finish(s: Sys, t: nat, txn: Txn, a: Action, op: Op, after: Db)
    requires s.history != [] && t < |s.txns| && Enabled(With(s, t, txn), t, a)
    requires Next(With(s, t, txn), t, a) == Sys(s.history + [after], s.log + [op], s.txns[t := txn][t := Idle])
    ensures GetsThrough(s, t, txn, [a], op, after)
  {
    hide Enabled, Next;
    assert [a][0] == a && [a][1..] == [];
    assert s.txns[t := txn][t := Idle] == s.txns[t := Idle];
    var next := Next(With(s, t, txn), t, a);
    assert CanTake(next, t, []) && Taken(next, t, []) == next;
  }

  /** Nobody but `t` has locked a row of inventory, or of a reservation, that differs in `after`. */
  ghost predicate Unlocked(s: Sys, t: nat, after: Db)
    requires s.history != []
  {
    var db := Committed(s);
    && (forall u, row: nat | 0 <= u < |s.txns| && u != t && row < |db.inventory| && row < |after.inventory|
                             && after.inventory[row] != db.inventory[row] :: !HasLock(s.txns[u], row))
    && (forall u, r: nat | 0 <= u < |s.txns| && u != t && r < |db.reservations| && r < |after.reservations|
                           && after.reservations[r] != db.reservations[r] :: !HasReservation(s.txns[u], r))
  }

  lemma RowIsFree(s: Sys, t: nat, txn: Txn, after: Db, row: nat)
    requires s.history != [] && t < |s.txns| && Unlocked(s, t, after)
    requires row < |Committed(s).inventory| && row < |after.inventory|
    requires after.inventory[row] != Committed(s).inventory[row]
    ensures RowFree(With(s, t, txn), t, row)
  {}

  lemma ReservationIsFree(s: Sys, t: nat, txn: Txn, after: Db, r: nat)
    requires s.history != [] && t < |s.txns| && Unlocked(s, t, after)
    requires r < |Committed(s).reservations| && r < |after.reservations|
    requires after.reservations[r] != Committed(s).reservations[r]
    ensures ReservationFree(With(s, t, txn), t, r)
  {}

  // ----- create -----

  /** A `create` that is going to commit: its request is `op`, and its answers are those of `op` so far. */
  ghost predicate Makes(db: Db, c: Creating, op: Op, after: Db) {
    && op.Create? && ValidOp(db, op) && Attempt(db, op) == Ok(after)
    && c.userId == op.userId && c.lines == op.lines && c.expiresAt == op.expiresAt && c.seen == op.seen
    && |op.holds| == |op.lines| == |op.seen|
    && (forall j | 0 <= j < |op.seen| :: op.seen[j].Some?) && c.ids == IdsOf(op.seen)
    && c.outs <= op.holds
  }

  lemma EveryLineFits(db: Db, op: Op, after: Db, k: nat)
    requires op.Create? && ValidOp(db, op) && Attempt(db, op) == Ok(after) && k < |op.lines|
    ensures |op.seen| == |op.holds| == |op.lines| && LineFits(db, op.lines[k], op.seen[k], op.holds[k])
    ensures
      var id := op.seen[k].value.id;
      && |after.inventory| == |db.inventory| && id < |db.inventory| && after.inventory[id] != db.inventory[id]
  {
    CreateEffect(db, op.userId, op.lines, op.seen, op.holds, op.expiresAt);
    var ids := IdsOf(op.seen);
    assert LineFits(db, op.lines[k], op.seen[k], op.holds[k]);
    assert op.lines[k] in op.lines;
    assert after.inventory[ids[k]] == BookedRows(db, ids, op.lines)[k];
  }

  lemma {:induction false} HoldRest(s: Sys, t: nat, c: Creating, op: Op, after: Db) returns (actions: seq<Action>)
    requires s.history != [] && t < |s.txns| && Makes(Committed(s), c, op, after)
    requires HoldsCurrent(Committed(s), c) && |c.items| <= |c.lines|
    ensures GetsThrough(s, t, Holding(c), actions, op, after)
    decreases |c.lines| - |c.items|
  {
    hide Enabled, After, Next, GetsThrough, Makes, HoldsCurrent, CanHold, HeldOne;
    if |c.items| == |c.lines| {
      CreateCommits(s, t, c, op, after);
      actions := [CommitCreate];
      Finish(s, t, Holding(c), CommitCreate, op, after);
    } else {
      var next, a := NextHolds(s, t, c, op, after);
      var rest := HoldRest(s, t, next, op, after);
      actions := [a] + rest;
      OneMore(s, t, Holding(c), a, rest, op, after);
    }
  }

  lemma CreateCommits(s: Sys, t: nat, c: Creating, op: Op, after: Db)
    requires s.history != [] && t < |s.txns| && Makes(Committed(s), c, op, after)
    requires HoldsCurrent(Committed(s), c) && |c.items| == |c.lines|
    ensures Enabled(With(s, t, Holding(c)), t, CommitCreate)
    ensures Next(With(s, t, Holding(c)), t, CommitCreate) ==
            Sys(s.history + [after], s.log + [op], s.txns[t := Holding(c)][t := Idle])
  {
    assert c.outs == op.holds;
    CommitCreateIsAtomic(Committed(s), c);
    hide LineCurrent, Attempt, ValidOp, Created;
  }

  lemma NextHolds(s: Sys, t: nat, c: Creating, op: Op, after: Db) returns (next: Creating, a: Action)
    requires s.history != [] && t < |s.txns| && Makes(Committed(s), c, op, after)
    requires HoldsCurrent(Committed(s), c) && |c.items| < |c.lines|
    ensures Enabled(With(s, t, Holding(c)), t, a) && !Commits(a)
    ensures After(With(s, t, Holding(c)), t, a) == Holding(next)
    ensures Makes(Committed(s), next, op, after) && HoldsCurrent(Committed(s), next)
    ensures next.lines == c.lines && |next.items| == |c.items| + 1
  {
    var db, k := Committed(s), |c.items|;
    EveryLineFits(db, op, after, k);
    assert LineCurrent(db, c, k);
    HoldKeepsCurrent(db, c, op.holds[k]);
    assert c.outs + [op.holds[k]] == op.holds[..k + 1];
    next, a := HeldOne(db, c, op.holds[k]), HoldStock(op.holds[k]);
  }

  lemma {:induction false} LockRest(s: Sys, t: nat, c: Creating, op: Op, after: Db) returns (actions: seq<Action>)
    requires s.history != [] && t < |s.txns| && Makes(Committed(s), c, op, after) && Unlocked(s, t, after)
    requires LocksCurrent(Committed(s), c) && c.items == [] && c.outs == [] && |c.rows| <= |c.lines|
    ensures GetsThrough(s, t, Locking(c), actions, op, after)
    decreases |c.lines| - |c.rows|
  {
    hide Enabled, After, Next, GetsThrough, Makes, LocksCurrent, HoldsCurrent, Unlocked;
    if |c.rows| == |c.lines| {
      var next := MayReserve(s, t, c, op, after);
      var rest := HoldRest(s, t, next, op, after);
      actions := [ReserveRows] + rest;
      OneMore(s, t, Locking(c), ReserveRows, rest, op, after);
    } else {
      var next := NextLocks(s, t, c, op, after);
      var rest := LockRest(s, t, next, op, after);
      actions := [LockRow] + rest;
      OneMore(s, t, Locking(c), LockRow, rest, op, after);
    }
  }

  lemma MayReserve(s: Sys, t: nat, c: Creating, op: Op, after: Db) returns (next: Creating)
    requires s.history != [] && t < |s.txns| && Makes(Committed(s), c, op, after)
    requires LocksCurrent(Committed(s), c) && c.items == [] && c.outs == [] && |c.rows| == |c.lines|
    ensures Enabled(With(s, t, Locking(c)), t, ReserveRows)
    ensures After(With(s, t, Locking(c)), t, ReserveRows) == Holding(next)
    ensures Makes(Committed(s), next, op, after) && HoldsCurrent(Committed(s), next) && |next.items| <= |next.lines|
  {
    ReserveKeepsCurrent(Committed(s), c);
    next := Reserved(c);
  }

  lemma NextLocks(s: Sys, t: nat, c: Creating, op: Op, after: Db) returns (next: Creating)
    requires s.history != [] && t < |s.txns| && Makes(Committed(s), c, op, after) && Unlocked(s, t, after)
    requires LocksCurrent(Committed(s), c) && c.items == [] && c.outs == [] && |c.rows| < |c.lines|
    ensures Enabled(With(s, t, Locking(c)), t, LockRow) && After(With(s, t, Locking(c)), t, LockRow) == Locking(next)
    ensures Makes(Committed(s), next, op, after) && LocksCurrent(Committed(s), next)
    ensures next.items == [] && next.outs == [] && next.lines == c.lines && |next.rows| == |c.rows| + 1
  {
    EveryLineFits(Committed(s), op, after, |c.rows|);
    RowIsFree(s, t, Locking(c), after, c.ids[|c.rows|]);
    LockKeepsCurrent(Committed(s), c);
    next := Locked(Committed(s), c);
  }

  lemma LinesPass(db: Db, op: Op)
    requires op.Create? && ValidOp(db, op)
    requires forall k | 0 <= k < |op.lines| :: LineFits(db, op.lines[k], op.seen[k], op.holds[k])
    ensures PreflightError(op.seen, op.lines, 0).None?
    ensures forall j | 0 <= j < |op.seen| :: op.seen[j].Some? && op.seen[j].value.id < |db.inventory|
  {
    forall j | 0 <= j < |op.seen| ensures op.seen[j].Some? && op.seen[j].value.id < |db.inventory| {
      assert LineFits(db, op.lines[j], op.seen[j], op.holds[j]);
    }
  }

  lemma PreflightStep(s: Sys, t: nat, userId: string, lines: seq<Line>, expiresAt: int, seen: seq<Option<Read>>)
    requires s.history != [] && t < |s.txns| && |seen| == |lines|
    requires PreflightError(seen, lines, 0).None? && ReadsProducts(Committed(s), lines, seen)
    requires forall j | 0 <= j < |seen| :: seen[j].Some? && seen[j].value.id < |Committed(s).inventory|
    ensures
      var w := With(s, t, Reading(userId, lines, expiresAt));
      && ReadsWell(Committed(s), lines, seen) && Enabled(w, t, Preflight(seen))
      && After(w, t, Preflight(seen)) == Locking(Creating(userId, lines, expiresAt, seen, IdsOf(seen), [], [], []))
  {
    hide PreflightError, ReadsProducts;
  }

  lemma MayPreflight(s: Sys, t: nat, op: Op, after: Db) returns (c: Creating)
    requires s.history != [] && t < |s.txns| && op.Create? && ValidOp(Committed(s), op)
    requires Attempt(Committed(s), op) == Ok(after)
    ensures
      var w := With(s, t, Reading(op.userId, op.lines, op.expiresAt));
      Enabled(w, t, Preflight(op.seen)) && After(w, t, Preflight(op.seen)) == Locking(c)
    ensures Makes(Committed(s), c, op, after) && LocksCurrent(Committed(s), c) && |c.rows| <= |c.lines|
    ensures c.rows == [] && c.items == [] && c.outs == []
  {
    hide Enabled, After, Attempt, LineFits, PreflightError, ValidRequest, ReadsProducts;
    var db := Committed(s);
    forall k | 0 <= k < |op.lines| ensures LineFits(db, op.lines[k], op.seen[k], op.holds[k]) {
      EveryLineFits(db, op, after, k);
    }
    LinesPass(db, op);
    PreflightStep(s, t, op.userId, op.lines, op.expiresAt, op.seen);
    c := Creating(op.userId, op.lines, op.expiresAt, op.seen, IdsOf(op.seen), [], [], []);
  }

  lemma MayBegin(s: Sys, t: nat, op: Op)
    requires s.history != [] && t < |s.txns| && op.Create? && ValidOp(Committed(s), op)
    ensures
      var w, a := With(s, t, Idle), BeginCreate(op.userId, op.lines, op.expiresAt);
      Enabled(w, t, a) && After(w, t, a) == Reading(op.userId, op.lines, op.expiresAt)
  {}

  lemma CreateGetsThrough(s: Sys, t: nat, op: Op, after: Db) returns (actions: seq<Action>)
    requires s.history != [] && t < |s.txns| && op.Create? && ValidOp(Committed(s), op)
    requires Attempt(Committed(s), op) == Ok(after) && Unlocked(s, t, after)
    ensures GetsThrough(s, t, Idle, actions, op, after)
  {
    hide Enabled, After, GetsThrough, Attempt, ValidOp, Unlocked, LocksCurrent, Makes;
    MayBegin(s, t, op);
    var c := MayPreflight(s, t, op, after);
    var rest := LockRest(s, t, c, op, after);
    var begin := BeginCreate(op.userId, op.lines, op.expiresAt);
    OneMore(s, t, Reading(op.userId, op.lines, op.expiresAt), Preflight(op.seen), rest, op, after);
    actions := [begin] + ([Preflight(op.seen)] + rest);
    OneMore(s, t, Idle, begin, [Preflight(op.seen)] + rest, op, after);
  }

  // ----- confirm and cancel -----

  /** A `confirm` or `cancel` that is going to commit `op`: it has read what is committed, and has had the answers of
      `op` so far. */
  ghost predicate WillClose(db: Db, f: Closing, op: Op, after: Db) {
    && ValidOp(db, op) && Attempt(db, op) == Ok(after)
    && SettlesCurrent(db, f) && !Overtaken(db, f)
    && match f.purpose
       case ToConfirm(now, answers) =>
         && op.Confirm? && op == Confirm(f.rid, now, op.answers)
         && |op.answers| == |f.res.items| && answers == op.answers[..|f.rows|]
       case ToCancel(unsent) => op == Cancel(f.rid, unsent)
  }

  /** All its rows, and its reservation, change. */
  lemma CloseChanges(init: seq<Inventory>, db: Db, f: Closing, op: Op, after: Db, k: nat)
    requires Inv(init, db) && WillClose(db, f, op, after) && k < |f.res.items|
    ensures |after.inventory| == |db.inventory| && f.res.items[k].inventoryId < |db.inventory|
    ensures after.inventory[f.res.items[k].inventoryId] != db.inventory[f.res.items[k].inventoryId]
  {
    var row := f.res.items[k].inventoryId;
    assert SideOf(db.ItemAt(f.rid, k).status) == Live && f.res.items[k].qty > 0;
    LiveItemIsReserved(init, db, f.rid, k);
    CloserDelta(init, db, op, f.rid, row);
    RowQtyOfItem(f.res.items, k);
  }

  lemma {:induction false} RowQtyOfItem(items: seq<Item>, k: nat)
    requires k < |items| && Positive(items)
    ensures RowQty(items, items[k].inventoryId) > 0
  {
    var last := |items| - 1;
    RowQtyBounds(items[..last], items[k].inventoryId);
    if k < last {
      RowQtyOfItem(items[..last], k);
    }
  }

  lemma CloseChangesRecord(init: seq<Inventory>, db: Db, f: Closing, op: Op, after: Db)
    requires Inv(init, db) && WillClose(db, f, op, after)
    ensures |after.reservations| == |db.reservations| && after.reservations[f.rid] != db.reservations[f.rid]
  {
    CloserCloses(init, db, op, f.rid);
  }

  /** The answer of `op` to the next item. */
  function NextAnswer(f: Closing, op: Op): ConfirmOutcome {
    if op.Confirm? && |f.rows| < |op.answers| then op.answers[|f.rows|] else Answered
  }

  lemma NextCanSettle(init: seq<Inventory>, db: Db, f: Closing, op: Op, after: Db)
    requires Inv(init, db) && WillClose(db, f, op, after) && |f.rows| < |f.res.items|
    ensures CanSettle(db, f, NextAnswer(f, op))
  {
    var k := |f.rows|;
    assert ItemOk(db, db.reservations[f.rid].items[k]);
    if op.Confirm? {
      ConfirmEffect(init, db, op.rid, op.now, op.answers);
    }
  }

  lemma StillWillClose(db: Db, f: Closing, op: Op, after: Db)
    requires WillClose(db, f, op, after) && |f.rows| < |f.res.items| && CanSettle(db, f, NextAnswer(f, op))
    ensures WillClose(db, SettledNext(db, f, NextAnswer(f, op)), op, after)
  {
    SettleKeepsCurrent(db, f, NextAnswer(f, op));
    hide SettlesCurrent, Attempt, ValidOp;
    if op.Confirm? {
      assert op.answers[..|f.rows|] + [op.answers[|f.rows|]] == op.answers[..|f.rows| + 1];
    }
  }

  lemma SettleStep(s: Sys, t: nat, f: Closing, answer: ConfirmOutcome)
    requires s.history != [] && t < |s.txns| && CanSettle(Committed(s), f, answer)
    requires RowFree(With(s, t, Settling(f)), t, f.res.items[|f.rows|].inventoryId)
    ensures Enabled(With(s, t, Settling(f)), t, SettleItem(answer))
    ensures After(With(s, t, Settling(f)), t, SettleItem(answer)) == Settling(SettledNext(Committed(s), f, answer))
  {
    hide RowFree;
  }

  lemma NextSettles(s: Sys, t: nat, f: Closing, op: Op, after: Db) returns (next: Closing, a: Action)
    requires s.history != [] && t < |s.txns| && Inv(s.history[0].inventory, Committed(s)) && Unlocked(s, t, after)
    requires WillClose(Committed(s), f, op, after) && |f.rows| < |f.res.items|
    ensures Enabled(With(s, t, Settling(f)), t, a) && !Commits(a)
    ensures After(With(s, t, Settling(f)), t, a) == Settling(next)
    ensures WillClose(Committed(s), next, op, after) && next.res == f.res && |next.rows| == |f.rows| + 1
  {
    hide Enabled, After, WillClose, Inv, Unlocked, CanSettle, RowFree;
    var db, init, answer := Committed(s), s.history[0].inventory, NextAnswer(f, op);
    NextCanSettle(init, db, f, op, after);
    StillWillClose(db, f, op, after);
    CloseChanges(init, db, f, op, after, |f.rows|);
    RowIsFree(s, t, Settling(f), after, f.res.items[|f.rows|].inventoryId);
    SettleStep(s, t, f, answer);
    next, a := SettledNext(db, f, answer), SettleItem(answer);
  }

  lemma EndIsAtomic(s: Sys, t: nat, f: Closing, op: Op, after: Db)
    requires s.history != [] && t < |s.txns| && Inv(s.history[0].inventory, Committed(s)) && Unlocked(s, t, after)
    requires WillClose(Committed(s), f, op, after) && |f.rows| == |f.res.items|
    ensures CloseOp(f) == op && ClosedDb(Committed(s), f) == after
    ensures ReservationFree(With(s, t, Settling(f)), t, f.rid)
  {
    var db, init := Committed(s), s.history[0].inventory;
    CloseChangesRecord(init, db, f, op, after);
    ReservationIsFree(s, t, Settling(f), after, f.rid);
    CommitIsAtomic(init, db, f);
    hide Attempt, ClosedDb, SettlesCurrent;
    assert f.purpose.ToConfirm? ==> op.answers[..|f.rows|] == op.answers;
  }

  lemma ClosesAtEnd(s: Sys, t: nat, f: Closing, op: Op, after: Db) returns (actions: seq<Action>)
    requires s.history != [] && t < |s.txns| && Inv(s.history[0].inventory, Committed(s)) && Unlocked(s, t, after)
    requires WillClose(Committed(s), f, op, after) && |f.rows| == |f.res.items|
    ensures GetsThrough(s, t, Settling(f), actions, op, after)
  {
    EndIsAtomic(s, t, f, op, after);
    if f.purpose.ToConfirm? {
      FlushesAndCommits(s, t, f);
      hide Enabled, After, Next, GetsThrough, WillClose, Inv, Unlocked;
      actions := [FlushOrder] + [CommitConfirm];
      Finish(s, t, Inserted(f), CommitConfirm, op, after);
      OneMore(s, t, Settling(f), FlushOrder, [CommitConfirm], op, after);
    } else {
      CancelCommits(s, t, f);
      hide Enabled, After, Next, GetsThrough, WillClose, Inv, Unlocked;
      actions := [CommitCancel];
      Finish(s, t, Settling(f), CommitCancel, op, after);
    }
  }

  lemma CancelCommits(s: Sys, t: nat, f: Closing)
    requires s.history != [] && t < |s.txns| && SettlesCurrent(Committed(s), f) && |f.rows| == |f.res.items|
    requires f.purpose.ToCancel? && ReservationFree(With(s, t, Settling(f)), t, f.rid)
    ensures Enabled(With(s, t, Settling(f)), t, CommitCancel)
    ensures Next(With(s, t, Settling(f)), t, CommitCancel) ==
            Sys(s.history + [ClosedDb(Committed(s), f)], s.log + [CloseOp(f)], s.txns[t := Settling(f)][t := Idle])
  {
    hide ClosedDb, RowsCurrent;
  }

  lemma FlushesAndCommits(s: Sys, t: nat, f: Closing)
    requires s.history != [] && t < |s.txns| && SettlesCurrent(Committed(s), f) && |f.rows| == |f.res.items|
    requires f.purpose.ToConfirm? && !Overtaken(Committed(s), f)
    requires ReservationFree(With(s, t, Settling(f)), t, f.rid)
    requires ValidOp(Committed(s), CloseOp(f)) && Attempt(Committed(s), CloseOp(f)).Ok?
    ensures Enabled(With(s, t, Settling(f)), t, FlushOrder)
    ensures After(With(s, t, Settling(f)), t, FlushOrder) == Inserted(f)
    ensures Enabled(With(s, t, Inserted(f)), t, CommitConfirm)
    ensures Next(With(s, t, Inserted(f)), t, CommitConfirm) ==
            Sys(s.history + [ClosedDb(Committed(s), f)], s.log + [CloseOp(f)], s.txns[t := Inserted(f)][t := Idle])
  {
    hide ClosedDb, RowsCurrent;
  }

  lemma {:induction false} CloseRest(s: Sys, t: nat, f: Closing, op: Op, after: Db) returns (actions: seq<Action>)
    requires s.history != [] && t < |s.txns| && Inv(s.history[0].inventory, Committed(s)) && Unlocked(s, t, after)
    requires WillClose(Committed(s), f, op, after) && |f.rows| <= |f.res.items|
    ensures GetsThrough(s, t, Settling(f), actions, op, after)
    decreases |f.res.items| - |f.rows|
  {
    hide Enabled, After, Next, GetsThrough, WillClose, Inv, Unlocked;
    if |f.rows| == |f.res.items| {
      actions := ClosesAtEnd(s, t, f, op, after);
    } else {
      var next, a := NextSettles(s, t, f, op, after);
      var rest := CloseRest(s, t, next, op, after);
      actions := [a] + rest;
      OneMore(s, t, Settling(f), a, rest, op, after);
    }
  }

  /** What the transaction is for, before any answer. */
  function PurposeOf(op: Op): Purpose
    requires op.Confirm? || op.Cancel?
  {
    match op
    case Confirm(_, now, _) => ToConfirm(now, [])
    case Cancel(_, unsent) => ToCancel(unsent)
  }

  lemma ReadStep(s: Sys, t: nat, rid: int, purpose: Purpose)
    requires s.history != [] && t < |s.txns| && MayClose(Committed(s), rid, purpose)
    ensures 0 <= rid < |Committed(s).reservations|
    ensures
      var w := With(s, t, Starting(rid, purpose));
      && Enabled(w, t, ReadReservation)
      && After(w, t, ReadReservation) == Settling(Closing(rid, purpose, Committed(s).reservations[rid], []))
  {
    hide HasOrder;
  }

  lemma PassesTests(init: seq<Inventory>, db: Db, op: Op, after: Db)
    requires Inv(init, db) && (op.Confirm? || op.Cancel?) && ValidOp(db, op) && Attempt(db, op) == Ok(after)
    requires 0 <= op.rid < |db.reservations| && db.reservations[op.rid].status == Pending
    ensures MayClose(db, op.rid, PurposeOf(op))
    ensures op.Confirm? ==> |op.answers| == |db.reservations[op.rid].items|
  {}

  lemma MayRead(s: Sys, t: nat, op: Op, after: Db) returns (f: Closing)
    requires s.history != [] && t < |s.txns| && Inv(s.history[0].inventory, Committed(s))
    requires (op.Confirm? || op.Cancel?) && ValidOp(Committed(s), op) && Attempt(Committed(s), op) == Ok(after)
    requires 0 <= op.rid < |Committed(s).reservations| && Committed(s).reservations[op.rid].status == Pending
    ensures
      var w := With(s, t, Starting(op.rid, PurposeOf(op)));
      Enabled(w, t, ReadReservation) && After(w, t, ReadReservation) == Settling(f)
    ensures WillClose(Committed(s), f, op, after) && |f.rows| <= |f.res.items|
  {
    var db, init := Committed(s), s.history[0].inventory;
    hide Enabled, After;
    PassesTests(init, db, op, after);
    ReadStep(s, t, op.rid, PurposeOf(op));
    ReadIsCurrent(init, db, op.rid, PurposeOf(op));
    hide Inv, Attempt, ValidOp, SettlesCurrent;
    f := Closing(op.rid, PurposeOf(op), db.reservations[op.rid], []);
  }

  lemma MaySkip(s: Sys, t: nat, op: Op, after: Db)
    requires s.history != [] && t < |s.txns| && Inv(s.history[0].inventory, Committed(s))
    requires (op.Confirm? || op.Cancel?) && ValidOp(Committed(s), op) && Attempt(Committed(s), op) == Ok(after)
    requires !(0 <= op.rid < |Committed(s).reservations| && Committed(s).reservations[op.rid].status == Pending)
    ensures
      var starting := Starting(op.rid, PurposeOf(op));
      && Enabled(With(s, t, starting), t, SkipCancel)
      && Next(With(s, t, starting), t, SkipCancel) ==
         Sys(s.history + [after], s.log + [op], s.txns[t := starting][t := Idle])
  {
    var db, init := Committed(s), s.history[0].inventory;
    if op.Confirm? {
      ConfirmEffect(init, db, op.rid, op.now, op.answers);
    } else {
      CancelEffect(init, db, op.rid);
    }
  }

  lemma MayBeginClose(s: Sys, t: nat, op: Op)
    requires s.history != [] && t < |s.txns| && (op.Confirm? || op.Cancel?)
    ensures
      var w, a := With(s, t, Idle), BeginClose(op.rid, PurposeOf(op));
      Enabled(w, t, a) && After(w, t, a) == Starting(op.rid, PurposeOf(op))
  {}

  lemma CloseGetsThrough(s: Sys, t: nat, op: Op, after: Db) returns (actions: seq<Action>)
    requires s.history != [] && t < |s.txns| && (op.Confirm? || op.Cancel?) && ValidOp(Committed(s), op)
    requires Inv(s.history[0].inventory, Committed(s))
    requires Attempt(Committed(s), op) == Ok(after) && Unlocked(s, t, after)
    ensures GetsThrough(s, t, Idle, actions, op, after)
  {
    hide Enabled, After, Next, GetsThrough, WillClose, Inv, Unlocked, ValidOp, Attempt, PurposeOf;
    var db, begin, starting := Committed(s), BeginClose(op.rid, PurposeOf(op)), Starting(op.rid, PurposeOf(op));
    var rest;
    if 0 <= op.rid < |db.reservations| && db.reservations[op.rid].status == Pending {
      var f := MayRead(s, t, op, after);
      var close := CloseRest(s, t, f, op, after);
      OneMore(s, t, starting, ReadReservation, close, op, after);
      rest := [ReadReservation] + close;
    } else {
      MaySkip(s, t, op, after);
      Finish(s, t, starting, SkipCancel, op, after);
      rest := [SkipCancel];
    }
    MayBeginClose(s, t, op);
    actions := [begin] + rest;
    OneMore(s, t, Idle, begin, rest, op, after);
  }

  // ----- sweeps -----

  /** A sweep that is going to commit `op`. */
  ghost predicate WillSweep(db: Db, w: Sweeper, op: Op, after: Db) {
    && op == SweepOp(w) && ValidOp(db, op) && Attempt(db, op) == Ok(after) && SweepsCurrent(db, w)
  }

  lemma SweepChanges(init: seq<Inventory>, db: Db, w: Sweeper, op: Op, after: Db, k: nat)
    requires Inv(init, db) && WillSweep(db, w, op, after) && k < |ItemsOf(w)|
    ensures |after.inventory| == |db.inventory| && ItemsOf(w)[k].inventoryId < |db.inventory|
    ensures after.inventory[ItemsOf(w)[k].inventoryId] != db.inventory[ItemsOf(w)[k].inventoryId]
  {
    ItemsAreWhole(init, db, w, k);
    LiveItems(init, db, w);
    BatchFits(init, db, w, ItemsOf(w)[k].inventoryId);
    RowQtyOfItem(ItemsOf(w), k);
  }

  /** Every item of the flattened batch is an item of the database. */
  lemma {:induction false} FlatItemIsItem(res: seq<Reservation>, b: nat, k: nat)
    requires b <= |res| && k < |ItemsFrom(res, b)|
    ensures exists i, j | 0 <= i < |res| && 0 <= j < |res[i].items| :: ItemsFrom(res, b)[k] == res[i].items[j]
    decreases |res| - b
  {
    var m := |res[b].items|;
    if k < m {
      assert ItemsFrom(res, b)[k] == res[b].items[k];
    } else {
      FlatItemIsItem(res, b + 1, k - m);
      assert ItemsFrom(res, b)[k] == ItemsFrom(res, b + 1)[k - m];
    }
  }

  lemma ItemsAreWhole(init: seq<Inventory>, db: Db, w: Sweeper, k: nat)
    requires Inv(init, db) && ReadsCurrent(db, w) && k < |ItemsOf(w)|
    ensures ItemOk(db, ItemsOf(w)[k])
  {
    FlatItemIsItem(w.res, 0, k);
    var i, j :| 0 <= i < |w.res| && 0 <= j < |w.res[i].items| && ItemsOf(w)[k] == w.res[i].items[j];
    assert ItemOk(db, db.reservations[w.batch[i]].items[j]);
  }

  lemma {:induction false} SweepRest(s: Sys, t: nat, w: Sweeper, op: Op, after: Db) returns (actions: seq<Action>)
    requires s.history != [] && t < |s.txns| && Inv(s.history[0].inventory, Committed(s)) && Unlocked(s, t, after)
    requires WillSweep(Committed(s), w, op, after) && w.done <= |ItemsOf(w)|
    ensures GetsThrough(s, t, Sweeping(w), actions, op, after)
    decreases |ItemsOf(w)| - w.done
  {
    hide Enabled, After, Next, GetsThrough, WillSweep, Inv, Unlocked;
    if w.done == |ItemsOf(w)| {
      SweepCommits(s, t, w, op, after);
      actions := [CommitSweep];
      Finish(s, t, Sweeping(w), CommitSweep, op, after);
    } else {
      var next := NextReleases(s, t, w, op, after);
      var rest := SweepRest(s, t, next, op, after);
      actions := [ReleaseStock] + rest;
      OneMore(s, t, Sweeping(w), ReleaseStock, rest, op, after);
    }
  }

  lemma SweepCommitStep(s: Sys, t: nat, w: Sweeper)
    requires s.history != [] && t < |s.txns| && w.done == |ItemsOf(w)| && |w.res| == |w.batch|
    ensures Enabled(With(s, t, Sweeping(w)), t, CommitSweep)
    ensures Next(With(s, t, Sweeping(w)), t, CommitSweep) ==
            Sys(s.history + [SweptDb(Committed(s), w)], s.log + [SweepOp(w)], s.txns[t := Sweeping(w)][t := Idle])
  {
    hide SweptDb, ItemsOf;
  }

  lemma SweepCommits(s: Sys, t: nat, w: Sweeper, op: Op, after: Db)
    requires s.history != [] && t < |s.txns| && Inv(s.history[0].inventory, Committed(s))
    requires WillSweep(Committed(s), w, op, after) && w.done == |ItemsOf(w)|
    ensures Enabled(With(s, t, Sweeping(w)), t, CommitSweep)
    ensures Next(With(s, t, Sweeping(w)), t, CommitSweep) ==
            Sys(s.history + [after], s.log + [op], s.txns[t := Sweeping(w)][t := Idle])
  {
    hide Enabled, Next, Inv, Attempt, ValidOp, SweptDb, FreedSoFar;
    SweepCommitStep(s, t, w);
    CommitSweepIsAtomic(s.history[0].inventory, Committed(s), w);
  }

  lemma ReleaseStep(s: Sys, t: nat, w: Sweeper)
    requires s.history != [] && t < |s.txns| && CanRelease(Committed(s), w)
    requires RowFree(With(s, t, Sweeping(w)), t, ItemsOf(w)[w.done].inventoryId)
    ensures Enabled(With(s, t, Sweeping(w)), t, ReleaseStock)
    ensures After(With(s, t, Sweeping(w)), t, ReleaseStock) == Sweeping(ReleasedOne(Committed(s), w))
  {
    hide RowFree;
  }

  lemma NextCanRelease(init: seq<Inventory>, db: Db, w: Sweeper, op: Op, after: Db)
    requires Inv(init, db) && WillSweep(db, w, op, after) && w.done < |ItemsOf(w)|
    ensures CanRelease(db, w) && WillSweep(db, ReleasedOne(db, w), op, after)
  {
    ItemsAreWhole(init, db, w, w.done);
    assert CanRelease(db, w);
    ReleaseKeepsCurrent(init, db, w);
    hide Inv, Attempt, ValidOp, SweepsCurrent;
  }

  lemma NextReleases(s: Sys, t: nat, w: Sweeper, op: Op, after: Db) returns (next: Sweeper)
    requires s.history != [] && t < |s.txns| && Inv(s.history[0].inventory, Committed(s)) && Unlocked(s, t, after)
    requires WillSweep(Committed(s), w, op, after) && w.done < |ItemsOf(w)|
    ensures Enabled(With(s, t, Sweeping(w)), t, ReleaseStock)
    ensures After(With(s, t, Sweeping(w)), t, ReleaseStock) == Sweeping(next)
    ensures WillSweep(Committed(s), next, op, after) && ItemsOf(next) == ItemsOf(w) && next.done == w.done + 1
  {
    hide Enabled, After, Inv, Unlocked, RowFree, WillSweep;
    var db, init := Committed(s), s.history[0].inventory;
    NextCanRelease(init, db, w, op, after);
    SweepChanges(init, db, w, op, after, w.done);
    RowIsFree(s, t, Sweeping(w), after, ItemsOf(w)[w.done].inventoryId);
    ReleaseStep(s, t, w);
    next := ReleasedOne(db, w);
  }

  lemma PickStep(s: Sys, t: nat, now: int, batch: seq<nat>, unsent: set<Call>)
    requires s.history != [] && t < |s.txns| && SweepsExpired(Committed(s), now, batch)
    requires forall b | 0 <= b < |batch| :: batch[b] < |Committed(s).reservations|
    requires forall r: nat | r in batch :: ReservationFree(With(s, t, Idle), t, r)
    ensures Enabled(With(s, t, Idle), t, PickBatch(now, batch, unsent))
    ensures After(With(s, t, Idle), t, PickBatch(now, batch, unsent)) ==
            Sweeping(Picked(Committed(s), now, batch, unsent))
  {
    hide SweepsExpired, ReservationFree;
  }

  lemma PickedStarts(db: Db, now: int, batch: seq<nat>, unsent: set<Call>)
    requires forall b | 0 <= b < |batch| :: batch[b] < |db.reservations|
    ensures Picked(db, now, batch, unsent).done == 0
    ensures SweepOp(Picked(db, now, batch, unsent)) == Sweep(now, batch, unsent)
  {}

  lemma MayPick(s: Sys, t: nat, op: Op, after: Db) returns (w: Sweeper)
    requires s.history != [] && t < |s.txns| && op.Sweep? && ValidOp(Committed(s), op)
    requires Inv(s.history[0].inventory, Committed(s))
    requires Attempt(Committed(s), op) == Ok(after) && Unlocked(s, t, after)
    ensures
      var a := PickBatch(op.now, op.batch, op.unsent);
      Enabled(With(s, t, Idle), t, a) && After(With(s, t, Idle), t, a) == Sweeping(w)
    ensures WillSweep(Committed(s), w, op, after) && w.done <= |ItemsOf(w)|
  {
    hide Enabled, After, Inv, Attempt, SweepsCurrent, Unlocked, ReservationFree;
    PickedIsCurrent(Committed(s), op.now, op.batch, op.unsent);
    BatchIsFree(s, t, op, after);
    PickStep(s, t, op.now, op.batch, op.unsent);
    PickedStarts(Committed(s), op.now, op.batch, op.unsent);
    w := Picked(Committed(s), op.now, op.batch, op.unsent);
  }

  lemma SweepGetsThrough(s: Sys, t: nat, op: Op, after: Db) returns (actions: seq<Action>)
    requires s.history != [] && t < |s.txns| && op.Sweep? && ValidOp(Committed(s), op)
    requires Inv(s.history[0].inventory, Committed(s))
    requires Attempt(Committed(s), op) == Ok(after) && Unlocked(s, t, after)
    ensures GetsThrough(s, t, Idle, actions, op, after)
  {
    hide Enabled, After, Next, GetsThrough, WillSweep, Inv, Unlocked, ValidOp, Attempt;
    var w := MayPick(s, t, op, after);
    var rest := SweepRest(s, t, w, op, after);
    actions := [PickBatch(op.now, op.batch, op.unsent)] + rest;
    OneMore(s, t, Idle, PickBatch(op.now, op.batch, op.unsent), rest, op, after);
  }

  lemma BatchIsFree(s: Sys, t: nat, op: Op, after: Db)
    requires s.history != [] && t < |s.txns| && op.Sweep? && ValidOp(Committed(s), op)
    requires Inv(s.history[0].inventory, Committed(s))
    requires Attempt(Committed(s), op) == Ok(after) && Unlocked(s, t, after)
    ensures forall r: nat | r in op.batch :: ReservationFree(With(s, t, Idle), t, r)
  {
    var db := Committed(s);
    assert forall b | 0 <= b < |op.batch| :: IsExpiredPending(db, op.now, op.batch[b]);
    SweepEffect(s.history[0].inventory, db, op.batch);
    forall r: nat | r in op.batch ensures ReservationFree(With(s, t, Idle), t, r) {
      assert IsExpiredPending(db, op.now, r);
      assert r in IdsFrom(op.batch, 0);
      ReservationIsFree(s, t, Idle, after, r);
    }
  }

  // ----- Every request -----

  /** The converse of serializability. In any state in order, an idle transaction can take any request that would
      succeed alone, and commit exactly what it would commit alone, if nobody else has locked a row that it changes. */
  lemma EveryRequestGetsThrough(s: Sys, t: nat, op: Op, after: Db) returns (actions: seq<Action>)
    requires SysInv(s) && t < |s.txns| && s.txns[t].Idle? && !op.Sync?
    requires ValidOp(Committed(s), op) && Attempt(Committed(s), op) == Ok(after) && Unlocked(s, t, after)
    ensures CanTake(s, t, actions)
    ensures Taken(s, t, actions) == Sys(s.history + [after], s.log + [op], s.txns)
  {
    RunKeepsInv(s.history, s.log, |s.history| - 1);
    assert s.txns[t := Idle] == s.txns && With(s, t, Idle) == s;
    hide SysInv, Inv, Unlocked, Attempt, ValidOp, CanTake, Taken;
    match op
    case Create(_, _, _, _, _) => actions := CreateGetsThrough(s, t, op, after);
    case Sweep(_, _, _) => actions := SweepGetsThrough(s, t, op, after);
    case Confirm(_, _, _) => actions := CloseGetsThrough(s, t, op, after);
    case Cancel(_, _) => actions := CloseGetsThrough(s, t, op, after);
  }

  // ----- Executions that go on -----

  lemma GoOn(states: seq<Sys>, steps: seq<Step>, t: nat, a: Action) returns (longer: seq<Sys>, more: seq<Step>)
    requires IsExecution(states, steps)
    requires states[|steps|].history != [] && t < |states[|steps|].txns| && Enabled(states[|steps|], t, a)
    ensures IsExecution(longer, more) && more == steps + [Step(t, a)]
    ensures longer == states + [Next(states[|steps|], t, a)]
  {
    hide Enabled, Next;
    longer, more := states + [Next(states[|steps|], t, a)], steps + [Step(t, a)];
    forall i | 0 <= i < |more|
      ensures longer[i].history != [] && more[i].t < |longer[i].txns| && Enabled(longer[i], more[i].t, more[i].action)
      ensures longer[i + 1] == Next(longer[i], more[i].t, more[i].action)
    {
      if i < |steps| {
        assert longer[i] == states[i] && longer[i + 1] == states[i + 1] && more[i] == steps[i];
      } else {
        assert longer[i] == states[i] && more[i] == Step(t, a);
      }
    }
  }

  lemma {:induction false} GoesOnBy(states: seq<Sys>, steps: seq<Step>, t: nat, actions: seq<Action>)
    returns (longer: seq<Sys>, more: seq<Step>)
    requires IsExecution(states, steps) && CanTake(states[|steps|], t, actions)
    ensures IsExecution(longer, more) && states <= longer && steps <= more
    ensures longer[|more|] == Taken(states[|steps|], t, actions)
    decreases |actions|
  {
    hide Enabled, Next;
    if actions == [] {
      longer, more := states, steps;
    } else {
      var a := actions[0];
      var next, taken := GoOn(states, steps, t, a);
      assert next[|taken|] == Next(states[|steps|], t, a);
      longer, more := GoesOnBy(next, taken, t, actions[1..]);
    }
  }

  /** Every unspoiled execution can go on with any request that would succeed alone. */
  lemma ExecutionGoesOn(states: seq<Sys>, steps: seq<Step>, t: nat, op: Op, after: Db)
    returns (longer: seq<Sys>, more: seq<Step>)
    requires IsExecution(states, steps) && Unspoiled(states, steps, |steps|)
    requires states[|steps|].history != [] && t < |states[|steps|].txns| && states[|steps|].txns[t].Idle? && !op.Sync?
    requires ValidOp(Committed(states[|steps|]), op) && Attempt(Committed(states[|steps|]), op) == Ok(after)
    requires Unlocked(states[|steps|], t, after)
    ensures IsExecution(longer, more) && states <= longer && steps <= more
    ensures longer[|more|].history == states[|steps|].history + [after]
    ensures longer[|more|].log == states[|steps|].log + [op] && longer[|more|].txns == states[|steps|].txns
  {
    ExecutionKeepsInv(states, steps, |steps|);
    var actions := EveryRequestGetsThrough(states[|steps|], t, op, after);
    longer, more := GoesOnBy(states, steps, t, actions);
  }

  // ----- A confirmation that raises -----

  /** How often these steps send the call `c`. */
  ghost function SendsOf(s: Sys, t: nat, actions: seq<Action>, c: Call): int
    requires CanTake(s, t, actions)
    decreases |actions|
  {
    if actions == [] then 0
    else StepSends(s, t, actions[0], c) + SendsOf(Next(s, t, actions[0]), t, actions[1..], c)
  }

  /** From there, these actions raise: nothing is committed, and the request has sent the call `c` `total` times. */
  ghost predicate Fails(s: Sys, t: nat, txn: Txn, actions: seq<Action>, c: Call, total: int)
    requires t < |s.txns|
  {
    && CanTake(With(s, t, txn), t, actions)
    && Taken(With(s, t, txn), t, actions) == With(s, t, Idle)
    && InFlight(txn, c) + SendsOf(With(s, t, txn), t, actions, c) == total
  }

  lemma OneMoreFails(s: Sys, t: nat, txn: Txn, a: Action, rest: seq<Action>, c: Call, total: int)
    requires s.history != [] && t < |s.txns| && Enabled(With(s, t, txn), t, a) && !Commits(a)
    requires InFlight(txn, c) + StepSends(With(s, t, txn), t, a, c) == InFlight(After(With(s, t, txn), t, a), c)
    requires Fails(s, t, After(With(s, t, txn), t, a), rest, c, total)
    ensures Fails(s, t, txn, [a] + rest, c, total)
  {
    QuietNext(s, t, txn, a);
    hide Enabled, Next, After, InFlight, StepSends;
    assert ([a] + rest)[0] == a && ([a] + rest)[1..] == rest;
  }

  /** A `confirm` of `op` whose exception is still to come. */
  ghost predicate WillRaise(db: Db, f: Closing, op: Op) {
    && op.Confirm? && ValidOp(db, op) && SettlesCurrent(db, f) && !Overtaken(db, f)
    && f.purpose.ToConfirm? && op == Confirm(f.rid, f.purpose.now, op.answers)
    && |op.answers| == |f.res.items| && f.purpose.answers == op.answers[..|f.rows|]
    && AnswerRaises(f.res.items, op.answers, |f.rows|)
  }

  lemma OneCallCount(kind: CallKind, r: nat, items: seq<Item>, k: nat, c: Call)
    requires k < |items|
    ensures OneCall(kind, r, items, k)[c] ==
            if c.kind == kind && c.reservationId == r && c.item == k
               && items[k].RemotelyHeld() && items[k].holdRef == Some(c.holdRef) then 1 else 0
  {}

  /** What a transaction has called for its first items. */
  lemma {:induction false} FirstCallsCount(kind: CallKind, r: nat, items: seq<Item>, n: nat, c: Call)
    requires n <= |items|
    ensures FirstCalls(kind, r, items, n)[c] ==
            if c.kind == kind && c.reservationId == r && c.item < n
               && items[c.item].RemotelyHeld() && items[c.item].holdRef == Some(c.holdRef) then 1 else 0
  {
    hide OneCall;
    if n > 0 {
      FirstCallsCount(kind, r, items, n - 1, c);
      OneCallCount(kind, r, items, n - 1, c);
    }
  }

  lemma LiveRefsAreHeld(init: seq<Inventory>, db: Db, f: Closing)
    requires Inv(init, db) && SettlesCurrent(db, f) && !Overtaken(db, f)
    ensures forall k | 0 <= k < |f.res.items| ::
              && f.res.items[k].RemotelyHeld() == f.res.items[k].holdRef.Some?
              && f.res.items[k].inventoryId < |db.inventory|
              && (f.res.items[k].RemotelyHeld() ==> Resolve(db.ProviderOf(f.res.items[k].providerId), None).Ok?)
  {
    forall k | 0 <= k < |f.res.items|
      ensures f.res.items[k].RemotelyHeld() == f.res.items[k].holdRef.Some?
      ensures f.res.items[k].RemotelyHeld() ==> Resolve(db.ProviderOf(f.res.items[k].providerId), None).Ok?
    {
      assert ItemOk(db, db.reservations[f.rid].items[k]);
    }
  }

  /** Where the exception comes, everything has gone out that would have gone out alone. */
  lemma RaisesHere(init: seq<Inventory>, db: Db, f: Closing, op: Op, c: Call)
    requires Inv(init, db) && WillRaise(db, f, op) && |f.rows| < |f.res.items|
    requires f.res.items[|f.rows|].holdRef.Some? && op.answers[|f.rows|].ConfirmRaised?
    ensures CanRaise(db, f, op.answers[|f.rows|])
    ensures InFlight(Settling(f), c)
            + (if Reached(op.answers[|f.rows|]) then OneCall(ConfirmHold, f.rid, f.res.items, |f.rows|)[c] else 0)
         == if IsSent(db, f.rid, op.answers, 0, c) then 1 else 0
  {
    LiveRefsAreHeld(init, db, f);
    FirstCallsCount(ConfirmHold, f.rid, f.res.items, |f.rows|, c);
    NoneRaisedYet(f, op);
  }

  lemma NoneRaisedYet(f: Closing, op: Op)
    requires op.Confirm? && |f.rows| <= |f.res.items| == |op.answers| && AnswersCurrent(f) && f.purpose.ToConfirm?
    requires f.purpose.answers == op.answers[..|f.rows|]
    ensures forall j | 0 <= j < |f.rows| && f.res.items[j].RemotelyHeld() :: !op.answers[j].ConfirmRaised?
  {
    forall j | 0 <= j < |f.rows| && f.res.items[j].RemotelyHeld() ensures !op.answers[j].ConfirmRaised? {
      assert f.purpose.answers[j] == op.answers[j];
    }
  }

  /** Nobody but `t` has locked a row of these items. */
  ghost predicate ItemsUnlocked(s: Sys, t: nat, items: seq<Item>) {
    forall u, k | 0 <= u < |s.txns| && u != t && 0 <= k < |items| :: !HasLock(s.txns[u], items[k].inventoryId)
  }

  lemma ItemIsFree(s: Sys, t: nat, txn: Txn, items: seq<Item>, k: nat)
    requires t < |s.txns| && k < |items| && ItemsUnlocked(s, t, items)
    ensures RowFree(With(s, t, txn), t, items[k].inventoryId)
  {}

  lemma RaiseStep(s: Sys, t: nat, f: Closing, answer: ConfirmOutcome, c: Call, total: int)
    requires s.history != [] && t < |s.txns| && CanRaise(Committed(s), f, answer)
    requires RowFree(With(s, t, Settling(f)), t, f.res.items[|f.rows|].inventoryId)
    requires InFlight(Settling(f), c)
             + (if Reached(answer) then OneCall(ConfirmHold, f.rid, f.res.items, |f.rows|)[c] else 0) == total
    ensures Fails(s, t, Settling(f), [RaiseOnItem(answer)], c, total)
  {
    hide RowFree, InFlight, OneCall;
    var w, a := With(s, t, Settling(f)), RaiseOnItem(answer);
    QuietNext(s, t, Settling(f), a);
    assert [a][0] == a && [a][1..] == [];
    var next := Next(w, t, a);
    assert CanTake(next, t, []) && Taken(next, t, []) == next && SendsOf(next, t, [], c) == 0;
  }

  lemma NextWillRaise(init: seq<Inventory>, db: Db, f: Closing, op: Op)
    requires Inv(init, db) && WillRaise(db, f, op) && |f.rows| < |f.res.items|
    requires !(f.res.items[|f.rows|].holdRef.Some? && op.answers[|f.rows|].ConfirmRaised?)
    ensures CanSettle(db, f, op.answers[|f.rows|]) && WillRaise(db, SettledNext(db, f, op.answers[|f.rows|]), op)
  {
    LiveRefsAreHeld(init, db, f);
    SettleKeepsCurrent(db, f, op.answers[|f.rows|]);
    assert op.answers[..|f.rows|] + [op.answers[|f.rows|]] == op.answers[..|f.rows| + 1];
    hide Inv, SettlesCurrent, ValidOp;
  }

  lemma SettleSends(s: Sys, t: nat, f: Closing, answer: ConfirmOutcome, c: Call)
    requires s.history != [] && t < |s.txns| && SettlesCurrent(Committed(s), f)
    requires Enabled(With(s, t, Settling(f)), t, SettleItem(answer))
    ensures
      var w := With(s, t, Settling(f));
      InFlight(Settling(f), c) + StepSends(w, t, SettleItem(answer), c) == InFlight(After(w, t, SettleItem(answer)), c)
  {
    hide InFlight, OneCall, RowFree, SettlesCurrent;
    SettledOneCall(Committed(s), f, answer, c);
  }

  lemma {:induction false} RaiseRest(s: Sys, t: nat, f: Closing, op: Op, c: Call, total: int)
    returns (actions: seq<Action>)
    requires s.history != [] && t < |s.txns| && Inv(s.history[0].inventory, Committed(s))
    requires WillRaise(Committed(s), f, op) && |f.rows| <= |f.res.items| && ItemsUnlocked(s, t, f.res.items)
    requires total == if IsSent(Committed(s), f.rid, op.answers, 0, c) then 1 else 0
    ensures Fails(s, t, Settling(f), actions, c, total)
    ensures actions == RaisingActions(f.res.items, op.answers, |f.rows|)
    decreases |f.res.items| - |f.rows|
  {
    hide Enabled, After, Next, Fails, Inv, ItemsUnlocked, InFlight, OneCall, IsSent;
    hide SettlesCurrent, CanSettle, CanRaise;
    var db, init, k := Committed(s), s.history[0].inventory, |f.rows|;
    ItemIsFree(s, t, Settling(f), f.res.items, k);
    var answer := op.answers[k];
    if f.res.items[k].holdRef.Some? && answer.ConfirmRaised? {
      RaisesHere(init, db, f, op, c);
      RaiseStep(s, t, f, answer, c, total);
      actions := [RaiseOnItem(answer)];
    } else {
      NextWillRaise(init, db, f, op);
      SettleStep(s, t, f, answer);
      SettleSends(s, t, f, answer, c);
      var rest := RaiseRest(s, t, SettledNext(db, f, answer), op, c, total);
      actions := [SettleItem(answer)] + rest;
      OneMoreFails(s, t, Settling(f), SettleItem(answer), rest, c, total);
    }
  }

  /** The steps of a confirmation from item `k` on, up to its exception. */
  function RaisingActions(items: seq<Item>, answers: seq<ConfirmOutcome>, k: nat): seq<Action>
    requires |answers| == |items|
    decreases |items| - k
  {
    if k >= |items| then []
    else if items[k].holdRef.Some? && answers[k].ConfirmRaised? then [RaiseOnItem(answers[k])]
    else [SettleItem(answers[k])] + RaisingActions(items, answers, k + 1)
  }

  lemma MayReadAndRaise(s: Sys, t: nat, op: Op) returns (f: Closing)
    requires s.history != [] && t < |s.txns| && Inv(s.history[0].inventory, Committed(s))
    requires op.Confirm? && ValidOp(Committed(s), op) && Attempt(Committed(s), op) == Err(ProviderRaised)
    ensures 0 <= op.rid < |Committed(s).reservations| && f.rid == op.rid
    ensures f.res == Committed(s).reservations[op.rid] && f.rows == []
    ensures
      var w := With(s, t, Starting(op.rid, ToConfirm(op.now, [])));
      Enabled(w, t, ReadReservation) && After(w, t, ReadReservation) == Settling(f)
    ensures WillRaise(Committed(s), f, op) && ConfirmGuard(Committed(s), op.rid, op.now).None?
  {
    var db, init := Committed(s), s.history[0].inventory;
    ConfirmEffect(init, db, op.rid, op.now, op.answers);
    GuardPassed(init, db, op);
    hide Enabled, After, ConfirmGuard;
    ReadStep(s, t, op.rid, ToConfirm(op.now, []));
    ReadIsCurrent(init, db, op.rid, ToConfirm(op.now, []));
    f := Closing(op.rid, ToConfirm(op.now, []), db.reservations[op.rid], []);
    hide Inv, SettlesCurrent, ConfirmGuard, Attempt;
  }

  lemma GuardPassed(init: seq<Inventory>, db: Db, op: Op)
    requires Inv(init, db) && op.Confirm? && 0 <= op.rid < |db.reservations|
    requires db.reservations[op.rid].status == Pending && op.now <= db.reservations[op.rid].expiresAt
    ensures ConfirmGuard(db, op.rid, op.now).None?
  {
    HasOrderCounts(db.orders, op.rid);
    assert CountOrders(db.orders, op.rid) == 0;
  }

  /** A confirmation that would raise alone raises step by step, too, if nobody else has locked a row of its items. It
      commits nothing, and has sent exactly the calls that it would have sent alone. */
  lemma RaisingConfirmEnds(s: Sys, t: nat, op: Op, c: Call) returns (actions: seq<Action>)
    requires SysInv(s) && t < |s.txns| && s.txns[t].Idle? && op.Confirm? && ValidOp(Committed(s), op)
    requires Attempt(Committed(s), op) == Err(ProviderRaised)
    requires 0 <= op.rid < |Committed(s).reservations| ==>
               ItemsUnlocked(s, t, Committed(s).reservations[op.rid].items)
    ensures CanTake(s, t, actions) && Taken(s, t, actions) == s
    ensures SendsOf(s, t, actions, c) == Sent(Committed(s), op)[c]
    ensures 0 <= op.rid < |Committed(s).reservations| && |Committed(s).reservations[op.rid].items| == |op.answers|
    ensures actions == [BeginClose(op.rid, ToConfirm(op.now, [])), ReadReservation]
                       + RaisingActions(Committed(s).reservations[op.rid].items, op.answers, 0)
  {
    var db, init := Committed(s), s.history[0].inventory;
    RunKeepsInv(s.history, s.log, |s.history| - 1);
    assert s.txns[t := Idle] == s.txns && With(s, t, Idle) == s;
    hide SysInv, Inv, ItemsUnlocked, Attempt, CanTake, Enabled, After, SettlesCurrent;
    var f := MayReadAndRaise(s, t, op);
    ConfirmCounts(init, db, op.rid, op.now, op.answers, c);
    var total := if IsSent(db, f.rid, op.answers, 0, c) then 1 else 0;
    var rest := RaiseRest(s, t, f, op, c, total);
    actions := RaisingEnds(s, t, f, op, c, total, rest);
  }

  lemma RaisingEnds(s: Sys, t: nat, f: Closing, op: Op, c: Call, total: int, rest: seq<Action>)
    returns (actions: seq<Action>)
    requires s.history != [] && t < |s.txns| && op.Confirm? && f.rows == []
    requires Fails(s, t, Settling(f), rest, c, total)
    requires
      var w := With(s, t, Starting(op.rid, ToConfirm(op.now, [])));
      Enabled(w, t, ReadReservation) && After(w, t, ReadReservation) == Settling(f)
    ensures Fails(s, t, Idle, actions, c, total)
    ensures actions == [BeginClose(op.rid, ToConfirm(op.now, [])), ReadReservation] + rest
  {
    var begin, starting := BeginClose(op.rid, ToConfirm(op.now, [])), Starting(op.rid, ToConfirm(op.now, []));
    NothingSettled(f);
    MayBeginClose(s, t, op);
    OneMoreFails(s, t, starting, ReadReservation, rest, c, total);
    OneMoreFails(s, t, Idle, begin, [ReadReservation] + rest, c, total);
    actions := [begin] + ([ReadReservation] + rest);
  }

  /** And any transaction can be rolled back at any point. */
  lemma AnyoneMayRollBack(s: Sys, t: nat)
    requires s.history != [] && t < |s.txns| && !s.txns[t].Idle?
    ensures CanTake(s, t, [Rollback]) && Taken(s, t, [Rollback]) == With(s, t, Idle)
  {
    assert [Rollback][0] == Rollback && [Rollback][1..] == [];
    var next := Next(s, t, Rollback);
    assert CanTake(next, t, []) && Taken(next, t, []) == next;
  }
}
