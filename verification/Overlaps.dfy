/** The settling calls of interleaved transactions that go out to providers: what a rolled-back one has sent is not
    taken back.
  */
module Overlaps {
  import opened Tables
  import opened Transactions
  import opened Operations
  import opened Settlement
  import opened Runs
  import opened Calls
  import opened Closers
  import opened Sweepers
  import opened Interleaving

  // ----- Calls, item by item -----

  function FirstCalls(kind: CallKind, r: nat, items: seq<Item>, n: nat): multiset<Call>
    requires n <= |items|
  {
    if n == 0 then multiset{} else FirstCalls(kind, r, items, n - 1) + OneCall(kind, r, items, n - 1)
  }

  lemma {:induction false} NoneYet(kind: CallKind, r: nat, items: seq<Item>, n: nat, c: Call)
    requires n <= |items| && n <= c.item
    ensures FirstCalls(kind, r, items, n)[c] == 0
  {
    if n > 0 {
      NoneYet(kind, r, items, n - 1, c);
    }
  }

  lemma FirstCallsStep(kind: CallKind, r: nat, items: seq<Item>, n: nat)
    requires n < |items|
    ensures FirstCalls(kind, r, items, n + 1) == FirstCalls(kind, r, items, n) + OneCall(kind, r, items, n)
  {}

  lemma {:induction false} FirstAndLast(kind: CallKind, r: nat, items: seq<Item>, n: nat, c: Call)
    requires n <= |items|
    ensures FirstCalls(kind, r, items, n)[c] + SettlingCalls(kind, r, items, n)[c] ==
            SettlingCalls(kind, r, items, 0)[c]
  {
    hide OneCall;
    if n > 0 {
      FirstAndLast(kind, r, items, n - 1, c);
    }
  }

  /** The calls of a sweep for its first `n` items, from reservation `b` of its batch on. */
  function SweptCalls(batch: seq<nat>, res: seq<Reservation>, b: nat, n: nat): multiset<Call>
    requires |res| == |batch| && b <= |batch| && n <= |ItemsFrom(res, b)|
    decreases |batch| - b
  {
    if b == |batch| then multiset{}
    else
      var items := res[b].items;
      if n <= |items| then FirstCalls(ReleaseHold, batch[b], items, n)
      else FirstCalls(ReleaseHold, batch[b], items, |items|) + SweptCalls(batch, res, b + 1, n - |items|)
  }

  /** The call that its item `n` makes. */
  function SweepCall(batch: seq<nat>, res: seq<Reservation>, b: nat, n: nat): multiset<Call>
    requires |res| == |batch| && b <= |batch| && n < |ItemsFrom(res, b)|
    decreases |batch| - b
  {
    var items := res[b].items;
    if n < |items| then OneCall(ReleaseHold, batch[b], items, n) else SweepCall(batch, res, b + 1, n - |items|)
  }

  lemma {:induction false} SweptCallsStart(batch: seq<nat>, res: seq<Reservation>, b: nat)
    requires |res| == |batch| && b <= |batch|
    ensures SweptCalls(batch, res, b, 0) == multiset{}
  {}

  lemma {:induction false} SweptCallsStep(batch: seq<nat>, res: seq<Reservation>, b: nat, n: nat, c: Call)
    requires |res| == |batch| && b <= |batch| && n < |ItemsFrom(res, b)|
    ensures SweptCalls(batch, res, b, n + 1)[c] == SweptCalls(batch, res, b, n)[c] + SweepCall(batch, res, b, n)[c]
    decreases |batch| - b
  {
    hide OneCall, FirstCalls;
    var m := |res[b].items|;
    if n < m {
      FirstCallsStep(ReleaseHold, batch[b], res[b].items, n);
    } else {
      if n == m {
        SweptCallsStart(batch, res, b + 1);
      }
      SweptCallsStep(batch, res, b + 1, n - m, c);
    }
  }

  lemma {:induction false} SweptCallsEnd(batch: seq<nat>, res: seq<Reservation>, b: nat, c: Call)
    requires |res| == |batch| && b <= |batch|
    ensures SweptCalls(batch, res, b, |ItemsFrom(res, b)|)[c] == BatchCalls(batch, res, b)[c]
    decreases |batch| - b
  {
    hide OneCall, FirstCalls;
    if b < |batch| {
      SweptCallsEnd(batch, res, b + 1, c);
      FirstAndLast(ReleaseHold, batch[b], res[b].items, |res[b].items|, c);
      if |ItemsFrom(res, b + 1)| == 0 {
        SweptCallsStart(batch, res, b + 1);
      }
    }
  }

  // ----- Calls of an execution -----

  /** The settling calls that a running transaction has made so far. */
  function CallsOf(txn: Txn): multiset<Call> {
    match txn
    case Settling(f) => SettledSoFar(f)
    case Inserted(f) => SettledSoFar(f)
    case Sweeping(w) =>
      if |w.res| == |w.batch| && w.done <= |ItemsOf(w)| then SweptCalls(w.batch, w.res, 0, w.done) else multiset{}
    case _ => multiset{}
  }

  function SettledSoFar(f: Closing): multiset<Call> {
    if |f.rows| <= |f.res.items| then FirstCalls(f.purpose.Kind(), f.rid, f.res.items, |f.rows|) else multiset{}
  }

  /** If a transaction of this purpose makes the call `c`, then it goes out. */
  predicate Goes(purpose: Purpose, c: Call) {
    match purpose
    case ToConfirm(_, answers) => c.item < |answers| && Reached(answers[c.item])
    case ToCancel(unsent) => c !in unsent
  }

  /** How many of its calls `c` have gone out: none, or one. */
  function InFlight(txn: Txn, c: Call): int {
    match txn
    case Settling(f) => if Goes(f.purpose, c) then CallsOf(txn)[c] else 0
    case Inserted(f) => if Goes(f.purpose, c) then CallsOf(txn)[c] else 0
    case Sweeping(w) => if c !in w.unsent then CallsOf(txn)[c] else 0
    case _ => 0
  }

  /** How often a step sends the call `c`. */
  ghost function StepSends(s: Sys, t: nat, a: Action, c: Call): int
    requires s.history != [] && t < |s.txns| && Enabled(s, t, a)
  {
    var txn := s.txns[t];
    match a
    case SettleItem(answer) =>
      var goes := if txn.f.purpose.ToConfirm? then Reached(answer) else c !in txn.f.purpose.unsent;
      if goes then OneCall(txn.f.purpose.Kind(), txn.f.rid, txn.f.res.items, |txn.f.rows|)[c] else 0
    case RaiseOnItem(answer) =>
      if Reached(answer) then OneCall(ConfirmHold, txn.f.rid, txn.f.res.items, |txn.f.rows|)[c] else 0
    case ReleaseStock =>
      if |txn.w.res| == |txn.w.batch| && c !in txn.w.unsent
      then SweepCall(txn.w.batch, txn.w.res, 0, txn.w.done)[c] else 0
    case _ => 0
  }

  /** How often the first `i` steps have sent it. */
  ghost function SentIn(states: seq<Sys>, steps: seq<Step>, i: nat, c: Call): int
    requires IsExecution(states, steps) && i < |states|
  {
    if i == 0 then 0
    else SentIn(states, steps, i - 1, c) + StepSends(states[i - 1], steps[i - 1].t, steps[i - 1].action, c)
  }

  /** The step rolls its transaction back: what it has sent by then is lost. */
  ghost function StepLoses(s: Sys, t: nat, a: Action, c: Call): int
    requires s.history != [] && t < |s.txns| && Enabled(s, t, a)
  {
    if a.Rollback? || a.RaiseOnItem? then InFlight(s.txns[t], c) + StepSends(s, t, a, c) else 0
  }

  /** How often the transactions that were rolled back have sent it. */
  ghost function LostIn(states: seq<Sys>, steps: seq<Step>, i: nat, c: Call): int
    requires IsExecution(states, steps) && i < |states|
  {
    if i == 0 then 0
    else LostIn(states, steps, i - 1, c) + StepLoses(states[i - 1], steps[i - 1].t, steps[i - 1].action, c)
  }

  /** How often those that are still running have. */
  function Running(txns: seq<Txn>, c: Call): int {
    if txns == [] then 0 else Running(txns[..|txns| - 1], c) + InFlight(txns[|txns| - 1], c)
  }

  lemma {:induction false} RunningUpdate(txns: seq<Txn>, t: nat, txn: Txn, c: Call)
    requires t < |txns|
    ensures Running(txns[t := txn], c) == Running(txns, c) - InFlight(txns[t], c) + InFlight(txn, c)
  {
    hide InFlight;
    var last := |txns| - 1;
    if t == last {
      assert txns[t := txn][..last] == txns[..last];
    } else {
      RunningUpdate(txns[..last], t, txn, c);
      assert txns[t := txn][..last] == txns[..last][t := txn];
    }
  }

  lemma {:induction false} RunningIdle(txns: seq<Txn>, c: Call)
    requires forall t | 0 <= t < |txns| :: txns[t].Idle?
    ensures Running(txns, c) == 0
  {
    if txns != [] {
      RunningIdle(txns[..|txns| - 1], c);
    }
  }

  // ----- One step -----

  /** A call that is sent goes to its transaction's own account; a rollback loses it. */
  ghost predicate Accounted(s: Sys, t: nat, a: Action, c: Call)
    requires s.history != [] && t < |s.txns| && Enabled(s, t, a)
  {
    InFlight(s.txns[t], c) + StepSends(s, t, a, c) == InFlight(After(s, t, a), c) + StepLoses(s, t, a, c)
  }

  lemma SettledOneCall(db: Db, f: Closing, answer: ConfirmOutcome, c: Call)
    requires SettlesCurrent(db, f) && CanSettle(db, f, answer)
    ensures
      var goes := if f.purpose.ToConfirm? then Reached(answer) else c !in f.purpose.unsent;
      InFlight(Settling(SettledNext(db, f, answer)), c) ==
      InFlight(Settling(f), c)
      + if goes then OneCall(f.purpose.Kind(), f.rid, f.res.items, |f.rows|)[c] else 0
  {
    hide FirstCalls;
    var kind, n := f.purpose.Kind(), |f.rows|;
    FirstCallsStep(kind, f.rid, f.res.items, n);
    if c.item >= n {
      NoneYet(kind, f.rid, f.res.items, n, c);
    }
  }

  lemma SettlingCallsOut(s: Sys, t: nat, a: Action, c: Call)
    requires s.history != [] && t < |s.txns| && Enabled(s, t, a) && TxnOk(Committed(s), s.txns[t])
    requires a.ReadReservation? || a.SettleItem? || a.FlushOrder?
    ensures Accounted(s, t, a, c)
  {
    hide FirstCalls, OneCall, MayClose, RowFree, ReservationFree, RowsCurrent;
    match a
    case SettleItem(answer) => SettledOneCall(Committed(s), s.txns[t].f, answer, c);
    case ReadReservation => NothingSettled(After(s, t, a).f);
    case _ =>
  }

  lemma NothingSettled(f: Closing)
    requires f.rows == []
    ensures SettledSoFar(f) == multiset{}
  {}

  lemma SweepingCallsOut(s: Sys, t: nat, a: Action, c: Call)
    requires s.history != [] && t < |s.txns| && Enabled(s, t, a) && TxnOk(Committed(s), s.txns[t])
    requires a.PickBatch? || a.ReleaseStock?
    ensures Accounted(s, t, a, c)
  {
    hide SweptCalls, SweepCall, RowFree, ReservationFree, SweepsExpired, FreedSoFar;
    var w := After(s, t, a).w;
    match a
    case PickBatch(_, _, _) => SweptCallsStart(w.batch, w.res, 0);
    case ReleaseStock => SweptCallsStep(w.batch, w.res, 0, s.txns[t].w.done, c);
  }

  lemma QuietCalls(s: Sys, t: nat, a: Action, c: Call)
    requires s.history != [] && t < |s.txns| && Enabled(s, t, a) && TxnOk(Committed(s), s.txns[t]) && !Commits(a)
    ensures Accounted(s, t, a, c)
  {
    if a.ReadReservation? || a.SettleItem? || a.FlushOrder? {
      SettlingCallsOut(s, t, a, c);
    } else if a.PickBatch? || a.ReleaseStock? {
      SweepingCallsOut(s, t, a, c);
    } else {
      hide TxnOk, SettledSoFar, SweptCalls, RowFree, CanLock, CanHold, CanRaise, ReadsWell;
    }
  }

  // ----- Commits -----

  /** What a committing transaction has sent is what its request sends when it runs alone. */
  lemma CloseSends(db: Db, f: Closing, txn: Txn, c: Call)
    requires |f.rows| == |f.res.items| && f.rid < |db.reservations| && (txn == Settling(f) || txn == Inserted(f))
    requires ValidOp(db, CloseOp(f)) && Attempt(db, CloseOp(f)) == Ok(ClosedDb(db, f))
    ensures Sent(db, CloseOp(f))[c] == InFlight(txn, c)
  {
    hide Attempt, ValidOp, WriteRows, FirstCalls, SettlingCalls, Sent;
    CommitKeepsCalls(db, CloseOp(f), c);
    FirstAndLast(f.purpose.Kind(), f.rid, f.res.items, |f.res.items|, c);
    NoMoreCalls(f);
  }

  lemma NoMoreCalls(f: Closing)
    ensures SettlingCalls(f.purpose.Kind(), f.rid, f.res.items, |f.res.items|) == multiset{}
  {}

  lemma SweepSends(db: Db, w: Sweeper, c: Call)
    requires |w.res| == |w.batch| && w.done == |ItemsOf(w)|
    requires ValidOp(db, SweepOp(w)) && Attempt(db, SweepOp(w)) == Ok(SweptDb(db, w))
    ensures Sent(db, SweepOp(w))[c] == InFlight(Txn.Sweeping(w), c)
  {
    hide Attempt, ValidOp, SweptCalls, BatchCalls, Sent;
    CommitKeepsCalls(db, SweepOp(w), c);
    SweptCallsEnd(w.batch, w.res, 0, c);
  }

  /** The request that a commit logs. */
  ghost function LastOp(s: Sys, t: nat, a: Action): Op
    requires s.history != [] && t < |s.txns| && Enabled(s, t, a) && Commits(a)
  {
    match a
    case CommitCreate => CreateOp(s.txns[t].c)
    case CommitSweep => SweepOp(s.txns[t].w)
    case CommitConfirm => CloseOp(s.txns[t].f)
    case CommitCancel => CloseOp(s.txns[t].f)
    case SkipCancel => Cancel(s.txns[t].rid, s.txns[t].purpose.unsent)
  }

  /** A commit moves its transaction's account to that of the committed requests. */
  ghost predicate MovesCalls(s: Sys, t: nat, a: Action, c: Call)
    requires s.history != [] && t < |s.txns| && Enabled(s, t, a) && Commits(a)
  {
    var db, op := Committed(s), LastOp(s, t, a);
    && ValidOp(db, op) && Sent(db, op)[c] == InFlight(s.txns[t], c)
    && Next(s, t, a).history == s.history + [Apply(db, op)] && Next(s, t, a).log == s.log + [op]
  }

  lemma CreateMovesCalls(s: Sys, t: nat, c: Call)
    requires SysInv(s) && t < |s.txns| && Enabled(s, t, CommitCreate)
    ensures MovesCalls(s, t, CommitCreate, c)
  {
    hide Inv, IsRun, CommitsAreAtomic, Sent, Created, Attempt;
    var db, txn := Committed(s), s.txns[t];
    assert TxnOk(db, txn);
    CommitCreateIsAtomic(db, txn.c);
    NothingToSettle(db, CreateOp(txn.c), c);
  }

  lemma SweepMovesCalls(s: Sys, t: nat, c: Call)
    requires SysInv(s) && t < |s.txns| && Enabled(s, t, CommitSweep)
    ensures MovesCalls(s, t, CommitSweep, c)
  {
    hide Inv, IsRun, CommitsAreAtomic, Sent, SweptDb, Attempt;
    var db, txn := Committed(s), s.txns[t];
    assert TxnOk(db, txn);
    RunKeepsInv(s.history, s.log, |s.history| - 1);
    CommitSweepIsAtomic(s.history[0].inventory, db, txn.w);
    SweepSends(db, txn.w, c);
  }

  lemma CloseMovesCalls(s: Sys, t: nat, a: Action, c: Call)
    requires SysInv(s) && t < |s.txns| && (a.CommitConfirm? || a.CommitCancel?) && Enabled(s, t, a)
    requires !Spoils(s, t, a)
    ensures MovesCalls(s, t, a, c)
  {
    hide Inv, IsRun, CommitsAreAtomic, Sent, ClosedDb, Attempt, Overtaken, Repeats;
    CloseIsAtomic(s, t, a);
    CloseSends(Committed(s), s.txns[t].f, s.txns[t], c);
  }

  lemma SkipMovesNothing(s: Sys, t: nat, c: Call)
    requires SysInv(s) && t < |s.txns| && Enabled(s, t, SkipCancel)
    ensures MovesCalls(s, t, SkipCancel, c)
  {}

  lemma CommitMovesCalls(s: Sys, t: nat, a: Action, c: Call)
    requires SysInv(s) && t < |s.txns| && Enabled(s, t, a) && Commits(a) && !Spoils(s, t, a)
    ensures MovesCalls(s, t, a, c)
  {
    hide SysInv, Enabled, Spoils, MovesCalls;
    match a
    case CommitCreate => CreateMovesCalls(s, t, c);
    case CommitSweep => SweepMovesCalls(s, t, c);
    case SkipCancel => SkipMovesNothing(s, t, c);
    case _ => CloseMovesCalls(s, t, a, c);
  }

  lemma NothingToSettle(db: Db, op: Op, c: Call)
    requires ValidOp(db, op) && op.Create?
    ensures Sent(db, op)[c] == 0
  {}

  lemma {:induction false} SentByPrefix(trace: seq<Db>, ops: seq<Op>, longer: seq<Db>, more: seq<Op>, n: nat)
    requires IsRun(trace, ops) && IsRun(longer, more) && trace <= longer && ops <= more && n < |trace|
    ensures SentBy(trace, ops, n) == SentBy(longer, more, n)
  {
    hide Sent, Apply;
    if n > 0 {
      SentByPrefix(trace, ops, longer, more, n - 1);
    }
  }

  // ----- Executions -----

  /** Over an execution, a call has been sent by the committed requests, as if they had run alone, by transactions that
      were rolled back, and by those still running: by nothing else. */
  lemma {:induction false} SendsBalance(states: seq<Sys>, steps: seq<Step>, i: nat, c: Call)
    requires IsExecution(states, steps) && i < |states| && Unspoiled(states, steps, i)
    ensures states[i].history != [] && IsRun(states[i].history, states[i].log)
    ensures SentIn(states, steps, i, c) ==
            SentBy(states[i].history, states[i].log, |states[i].log|)[c]
            + LostIn(states, steps, i, c) + Running(states[i].txns, c)
  {
    ExecutionKeepsInv(states, steps, i);
    if i == 0 {
      RunningIdle(states[0].txns, c);
    } else {
      SendsBalance(states, steps, i - 1, c);
      SendsStep(states, steps, i, c);
    }
  }

  lemma SendsStep(states: seq<Sys>, steps: seq<Step>, i: nat, c: Call)
    requires IsExecution(states, steps) && 0 < i < |states| && Unspoiled(states, steps, i)
    ensures states[i].history != [] && IsRun(states[i].history, states[i].log)
    ensures states[i - 1].history != [] && IsRun(states[i - 1].history, states[i - 1].log)
    ensures
      var before, after, step := states[i - 1], states[i], steps[i - 1];
      SentBy(before.history, before.log, |before.log|)[c] + Running(before.txns, c)
      + StepSends(before, step.t, step.action, c) ==
      SentBy(after.history, after.log, |after.log|)[c] + Running(after.txns, c)
      + StepLoses(before, step.t, step.action, c)
  {
    var s, t, a := states[i - 1], steps[i - 1].t, steps[i - 1].action;
    ExecutionKeepsInv(states, steps, i - 1);
    ExecutionKeepsInv(states, steps, i);
    assert !Spoils(s, t, a);
    hide Enabled, TxnOk, Inv, InFlight, Spoils, Commits, SentBy, Running, IsExecution, After;
    NextTxns(s, t, a);
    RunningUpdate(s.txns, t, After(s, t, a), c);
    if Commits(a) {
      CommitsAccounted(s, t, a, c);
    } else {
      QuietCalls(s, t, a, c);
      QuietHistory(s, t, a);
    }
  }

  lemma NextTxns(s: Sys, t: nat, a: Action)
    requires s.history != [] && t < |s.txns| && Enabled(s, t, a)
    ensures Next(s, t, a).txns == s.txns[t := After(s, t, a)]
  {}

  lemma QuietHistory(s: Sys, t: nat, a: Action)
    requires s.history != [] && t < |s.txns| && Enabled(s, t, a) && !Commits(a)
    ensures Next(s, t, a).history == s.history && Next(s, t, a).log == s.log
  {}

  lemma CommitsAccounted(s: Sys, t: nat, a: Action, c: Call)
    requires SysInv(s) && t < |s.txns| && Enabled(s, t, a) && Commits(a) && !Spoils(s, t, a) && SysInv(Next(s, t, a))
    ensures
      var next := Next(s, t, a);
      && SentBy(next.history, next.log, |next.log|)[c] ==
         SentBy(s.history, s.log, |s.log|)[c] + InFlight(s.txns[t], c)
      && InFlight(After(s, t, a), c) == 0 && StepSends(s, t, a, c) == 0 && StepLoses(s, t, a, c) == 0
  {
    var next := Next(s, t, a);
    CommitMovesCalls(s, t, a, c);
    assert next.log[|s.log|] == LastOp(s, t, a) && next.history[|s.log|] == Committed(s);
    SentByPrefix(s.history, s.log, next.history, next.log, |s.log|);
  }

  lemma {:induction false} LoggedRequestsLoseNothing(s: Sys, n: nat, c: Call)
    requires s.history != [] && IsRun(s.history, s.log) && CommitsAreAtomic(s) && n <= |s.log|
    ensures Lost(s.history, s.log, n, c) == 0
  {
    hide Attempt, Apply, ValidOp, IsSent;
    if n > 0 {
      LoggedRequestsLoseNothing(s, n - 1, c);
      assert Attempt(s.history[n - 1], s.log[n - 1]) == Ok(s.history[n - 1 + 1]);
    }
  }

  /** A call has gone out once if it has settled its item, and the request that did so sent it; and besides once for
      every overlapping transaction that sent it and then was rolled back, or has not ended yet. */
  lemma CallsUnderInterleaving(states: seq<Sys>, steps: seq<Step>, i: nat, c: Call)
    requires IsExecution(states, steps) && i < |states| && Unspoiled(states, steps, i)
    ensures IsRun(states[i].history, states[i].log)
    ensures SentIn(states, steps, i, c) ==
            (if SettledBySending(states[i].history, states[i].log, |states[i].log|, c) then 1 else 0)
            + LostIn(states, steps, i, c) + Running(states[i].txns, c)
  {
    ExecutionKeepsInv(states, steps, i);
    SendsBalance(states, steps, i, c);
    LoggedRequestsLoseNothing(states[i], |states[i].log|, c);
    CallsBalance(states[i].history, states[i].log, |states[i].log|, c);
  }
}
