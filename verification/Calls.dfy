/** The settling calls that really go out to providers. A rollback undoes the tables, but takes no request back:
    a confirmation that raises at one item has already confirmed the holds of the items before it. And an adapter
    may fail before it sends anything, which a release swallows: then nothing has gone out, though the tables say
    released.
  */
module Calls {
  import opened Tables
  import opened Schemas
  import opened Queries
  import opened Transactions
  import opened Operations
  import opened Ledger
  import opened Settlement
  import opened Booking
  import opened Steps
  import opened Runs

  // ----- Requests that commit -----

  /** The outcomes of a confirmation whose request has reached the network: any answer, and what goes wrong later. */
  predicate Reached(out: ConfirmOutcome) {
    out.Answered? || out.ConfirmUnavailable? || out == ConfirmTimedOut(true) || out == ConfirmRaised(true)
  }

  /** Which confirmations go out, outcome by outcome: one call after an answer, an error answer, and a timeout or
      another exception after sending; none after a timeout or an exception before. */
  lemma ConfirmationsThatGoOut(init: seq<Inventory>, db: Db, r: nat, k: nat)
    requires Inv(init, db) && db.HasItem(r, k) && db.reservations[r].status == Pending && db.ItemAt(r, k).holdRef.Some?
    ensures
      var one := multiset{Call(ConfirmHold, r, k, db.ItemAt(r, k).holdRef.value)};
      && ConfirmSends(db, r, k, Answered) == one
      && ConfirmSends(db, r, k, ConfirmUnavailable) == one
      && ConfirmSends(db, r, k, ConfirmTimedOut(true)) == one
      && ConfirmSends(db, r, k, ConfirmRaised(true)) == one
      && ConfirmSends(db, r, k, ConfirmTimedOut(false)) == multiset{}
      && ConfirmSends(db, r, k, ConfirmRaised(false)) == multiset{}
  {
    assert LiveFrom(db, r, k) by {
      assert StatusesAgree(db.reservations[r]);
    }
    ConfirmOneSends(init, db, r, k, Answered);
    ConfirmOneSends(init, db, r, k, ConfirmUnavailable);
    ConfirmOneSends(init, db, r, k, ConfirmTimedOut(true));
    ConfirmOneSends(init, db, r, k, ConfirmRaised(true));
    ConfirmOneSends(init, db, r, k, ConfirmTimedOut(false));
    ConfirmOneSends(init, db, r, k, ConfirmRaised(false));
  }

  /** If this request makes the call `c`, then it goes out. */
  predicate WentOut(op: Op, c: Call) {
    match op
    case Confirm(_, _, answers) => c.item < |answers| && Reached(answers[c.item])
    case Cancel(_, unsent) => c !in unsent
    case Sweep(_, _, unsent) => c !in unsent
    case _ => false
  }

  lemma {:induction false} ConfirmFromCalls(db: Db, r: nat, outs: seq<ConfirmOutcome>, k: nat, c: Call)
    requires r < |db.reservations| && |outs| == |db.reservations[r].items| && k <= |outs|
    requires ConfirmFrom(db, r, outs, k).Ok?
    ensures db.calls[c] <= ConfirmFrom(db, r, outs, k).value.calls[c]
    ensures ConfirmFromSends(db, r, outs, k)[c] ==
            if c.item < |outs| && Reached(outs[c.item])
            then ConfirmFrom(db, r, outs, k).value.calls[c] - db.calls[c] else 0
    decreases |outs| - k
  {
    if k < |outs| {
      ConfirmFromCalls(ConfirmItem(db, r, k, outs[k]).value, r, outs, k + 1, c);
    }
  }

  lemma {:induction false} ReleaseFromCalls(db: Db, r: nat, n: nat, k: nat, unsent: set<Call>, c: Call)
    requires r < |db.reservations| && n == |db.reservations[r].items| && k <= n && ReleaseFrom(db, r, n, k).Ok?
    ensures db.calls[c] <= ReleaseFrom(db, r, n, k).value.calls[c]
    ensures ReleaseFromSends(db, r, n, k, unsent)[c] ==
            if c !in unsent then ReleaseFrom(db, r, n, k).value.calls[c] - db.calls[c] else 0
    decreases n - k
  {
    if k < n {
      ReleaseFromCalls(ReleaseItem(db, r, k).value, r, n, k + 1, unsent, c);
    }
  }

  lemma {:induction false} SweepFromCalls(db: Db, batch: seq<nat>, k: nat, unsent: set<Call>, c: Call)
    requires k <= |batch| && (forall b | 0 <= b < |batch| :: batch[b] < |db.reservations|)
    requires SweepFrom(db, batch, k).Ok?
    ensures db.calls[c] <= SweepFrom(db, batch, k).value.calls[c]
    ensures SweepFromSends(db, batch, k, unsent)[c] ==
            if c !in unsent then SweepFrom(db, batch, k).value.calls[c] - db.calls[c] else 0
    decreases |batch| - k
  {
    if k < |batch| {
      ReleaseFromCalls(db, batch[k], |db.reservations[batch[k]].items|, 0, unsent, c);
      SweepFromCalls(CloseTx(db, batch[k], Expired).value, batch, k + 1, unsent, c);
    }
  }

  /** The calls of a request that commits go out as the world has it, and are all on the committed account. */
  lemma CommitKeepsCalls(db: Db, op: Op, c: Call)
    requires ValidOp(db, op) && Attempt(db, op).Ok?
    ensures db.calls[c] <= Apply(db, op).calls[c]
    ensures Sent(db, op)[c] == if WentOut(op, c) then Apply(db, op).calls[c] - db.calls[c] else 0
  {
    match op
    case Create(userId, lines, seen, holds, expiresAt) => CreateEffect(db, userId, lines, seen, holds, expiresAt);
    case Confirm(rid, _, answers) => ConfirmFromCalls(db, rid, answers, 0, c);
    case Cancel(rid, unsent) =>
      if db.reservations[rid].status == Pending {
        ReleaseFromCalls(db, rid, |db.reservations[rid].items|, 0, unsent, c);
      }
    case Sweep(_, batch, unsent) => SweepFromCalls(db, batch, 0, unsent, c);
    case Sync(pid, stocks, now) => SyncEffect(db, pid, stocks, now);
  }

  // ----- Confirmations that raise -----

  /** The confirmation of item `k` goes out: no remote hold from item `from` on raised before it, and its own
      outcome came too late to stop it. */
  predicate GoesOut(items: seq<Item>, outs: seq<ConfirmOutcome>, from: nat, k: nat)
    requires |outs| == |items|
  {
    && from <= k < |items| && items[k].holdRef.Some?
    && (forall j | from <= j < k :: items[j].holdRef.Some? ==> !outs[j].ConfirmRaised?)
    && Reached(outs[k])
  }

  lemma GoesOutStep(items: seq<Item>, outs: seq<ConfirmOutcome>, from: nat, k: nat, status: ItemStatus)
    requires |outs| == |items| && from < |items|
    ensures GoesOut(items, outs, from, k) <==>
            if k == from then items[k].holdRef.Some? && Reached(outs[k])
            else
              && !(items[from].holdRef.Some? && outs[from].ConfirmRaised?)
              && GoesOut(items[from := items[from].(status := status)], outs, from + 1, k)
  {
    var next := items[from := items[from].(status := status)];
    assert forall j | from < j < |items| :: next[j] == items[j];
  }

  /** `c` is the confirmation of an item of `r` that goes out. */
  predicate IsSent(db: Db, r: nat, outs: seq<ConfirmOutcome>, from: nat, c: Call)
    requires r < |db.reservations| && |outs| == |db.reservations[r].items|
  {
    && c.kind == ConfirmHold && c.reservationId == r
    && GoesOut(db.reservations[r].items, outs, from, c.item)
    && db.reservations[r].items[c.item].holdRef == Some(c.holdRef)
  }

  lemma ConfirmOneSends(init: seq<Inventory>, db: Db, r: nat, k: nat, out: ConfirmOutcome)
    requires Books(init, db) && db.HasItem(r, k) && LiveFrom(db, r, k)
    ensures ConfirmSends(db, r, k, out) ==
            if db.ItemAt(r, k).holdRef.Some? && Reached(out)
            then multiset{CallFor(ConfirmHold, db, r, k)} else multiset{}
  {
    assert ItemOk(db, db.reservations[r].items[k]);
  }

  lemma {:induction false} ConfirmFromCounts(
    init: seq<Inventory>, db: Db, r: nat, outs: seq<ConfirmOutcome>, k: nat, c: Call)
    requires Books(init, db) && r < |db.reservations|
    requires |outs| == |db.reservations[r].items| && k <= |outs| && LiveFrom(db, r, k)
    ensures ConfirmFromSends(db, r, outs, k)[c] == if IsSent(db, r, outs, k, c) then 1 else 0
    decreases |outs| - k
  {
    hide Books, SameStock, ConfirmItem, ConfirmSends;
    if k < |outs| {
      hide GoesOut;
      var one := ConfirmItem(db, r, k, outs[k]);
      ConfirmOneEffect(init, db, r, k, outs[k]);
      ConfirmOneSends(init, db, r, k, outs[k]);
      GoesOutStep(db.reservations[r].items, outs, k, c.item, ItemConfirmed);
      if one.Ok? {
        LiveAfterOne(db, one.value, r, k, ItemConfirmed);
        ConfirmFromCounts(init, one.value, r, outs, k + 1, c);
      }
    }
  }

  /** The calls of a `confirm` that passed its tests, whether it then commits or not. */
  lemma ConfirmCounts(init: seq<Inventory>, db: Db, rid: int, now: int, outs: seq<ConfirmOutcome>, c: Call)
    requires Inv(init, db) && AnswersEachItem(db, rid, outs) && ConfirmGuard(db, rid, now).None?
    ensures ConfirmTxSends(db, rid, now, outs)[c] == if IsSent(db, rid, outs, 0, c) then 1 else 0
  {
    assert LiveFrom(db, rid, 0) by {
      assert StatusesAgree(db.reservations[rid]);
    }
    ConfirmFromCounts(init, db, rid, outs, 0, c);
  }

  /** This request is a confirmation whose call `c` goes out, and which then raises. */
  predicate Loses(db: Db, op: Op, c: Call)
    requires ValidOp(db, op)
  {
    && op.Confirm? && Attempt(db, op).Err? && ConfirmGuard(db, op.rid, op.now).None?
    && IsSent(db, op.rid, op.answers, 0, c)
  }

  /** One request: the calls that go out are among those it commits, or those of a confirmation that raises. */
  lemma StepCalls(init: seq<Inventory>, db: Db, op: Op, c: Call)
    requires Inv(init, db) && ValidOp(db, op)
    ensures db.calls[c] <= Apply(db, op).calls[c]
    ensures Sent(db, op)[c] ==
            (if WentOut(op, c) then Apply(db, op).calls[c] - db.calls[c] else 0) + if Loses(db, op, c) then 1 else 0
  {
    if Attempt(db, op).Ok? {
      CommitKeepsCalls(db, op, c);
    } else {
      match op
      case Confirm(rid, now, answers) =>
        if ConfirmGuard(db, rid, now).None? {
          ConfirmCounts(init, db, rid, now, answers, c);
        }
      case Cancel(rid, _) =>
        if 0 <= rid < |db.reservations| && db.reservations[rid].status == Pending {
          CloseEffect(init, db, rid, Cancelled);
        }
      case Sweep(now, batch, _) =>
        assert forall b | 0 <= b < |batch| :: IsExpiredPending(db, now, batch[b]);
        SweepEffect(init, db, batch);
      case _ =>
    }
  }

  // ----- Whole runs -----

  /** All the settling calls of the first `i` requests of a run that have gone out. */
  ghost function SentBy(trace: seq<Db>, ops: seq<Op>, i: nat): multiset<Call>
    requires IsRun(trace, ops) && i < |trace|
  {
    if i == 0 then multiset{} else SentBy(trace, ops, i - 1) + Sent(trace[i - 1], ops[i - 1])
  }

  /** How many of them were confirmations whose call `c` went out, and which then raised. */
  ghost function Lost(trace: seq<Db>, ops: seq<Op>, i: nat, c: Call): nat
    requires IsRun(trace, ops) && i < |trace|
  {
    if i == 0 then 0
    else Lost(trace, ops, i - 1, c) + if Loses(trace[i - 1], ops[i - 1], c) then 1 else 0
  }

  ghost predicate IsClosed(trace: seq<Db>, i: nat, r: nat)
    requires i < |trace|
  {
    r < |trace[i].reservations| && trace[i].reservations[r].status != Pending
  }

  /** The request that closed reservation `r`. */
  ghost function ClosedAt(trace: seq<Db>, ops: seq<Op>, i: nat, r: nat): (j: nat)
    requires IsRun(trace, ops) && i < |trace| && IsClosed(trace, i, r)
    ensures j < |ops|
  {
    if IsClosed(trace, i - 1, r) then ClosedAt(trace, ops, i - 1, r) else i - 1
  }

  /** It is the one whose batch, cancellation or confirmation the reservation's status tells. */
  lemma {:induction false} ClosedAtCloses(trace: seq<Db>, ops: seq<Op>, i: nat, r: nat)
    requires IsRun(trace, ops) && i < |trace| && IsClosed(trace, i, r)
    ensures
      var j := ClosedAt(trace, ops, i, r);
      && j < i && r < |trace[j].reservations| && trace[j].reservations[r].status == Pending
      && StatusAfter(trace[j], ops[j], r) == trace[i].reservations[r].status
  {
    if IsClosed(trace, i - 1, r) {
      ClosedAtCloses(trace, ops, i - 1, r);
      RecordsAreFinal(trace, ops, i - 1, i, r);
    } else {
      NewOnesArePending(trace, ops, i - 1, r);
      ClosersClose(trace, ops, i - 1, r);
    }
  }

  lemma CreateAddsPending(init: seq<Inventory>, db: Db, op: Op)
    requires Inv(init, db) && ValidOp(db, op) && op.Create? && Attempt(db, op).Ok?
    ensures |Apply(db, op).reservations| == |db.reservations| + 1
    ensures Apply(db, op).reservations[|db.reservations|].status == Pending
  {
    CreateKeepsInv(init, db, op.userId, op.lines, op.seen, op.holds, op.expiresAt);
  }

  lemma NewOnesArePending(trace: seq<Db>, ops: seq<Op>, i: nat, r: nat)
    requires IsRun(trace, ops) && i < |ops| && IsClosed(trace, i + 1, r)
    ensures r < |trace[i].reservations|
  {
    hide Inv, ValidOp, Attempt;
    RunKeepsInv(trace, ops, i);
    if ops[i].Create? && Attempt(trace[i], ops[i]).Ok? {
      CreateAddsPending(trace[0].inventory, trace[i], ops[i]);
    } else {
      OnlyCreateAdds(trace[i], ops[i]);
    }
  }

  /** The call `c` has settled its item, and has gone out. */
  ghost predicate SettledBySending(trace: seq<Db>, ops: seq<Op>, i: nat, c: Call)
    requires IsRun(trace, ops) && i < |trace|
  {
    && Settled(trace[i], c) && IsClosed(trace, i, c.reservationId)
    && WentOut(ops[ClosedAt(trace, ops, i, c.reservationId)], c)
  }

  lemma SettledIsClosed(trace: seq<Db>, ops: seq<Op>, i: nat, c: Call)
    requires IsRun(trace, ops) && i < |trace|
    ensures trace[i].calls[c] == if Settled(trace[i], c) then 1 else 0
    ensures Settled(trace[i], c) ==> IsClosed(trace, i, c.reservationId)
  {
    RunKeepsInv(trace, ops, i);
    if Settled(trace[i], c) {
      assert StatusesAgree(trace[i].reservations[c.reservationId]);
    }
  }

  lemma StaysSettled(trace: seq<Db>, ops: seq<Op>, i: nat, c: Call)
    requires IsRun(trace, ops) && i < |ops|
    ensures Settled(trace[i], c) ==> Settled(trace[i + 1], c)
    ensures IsClosed(trace, i, c.reservationId) ==> Settled(trace[i + 1], c) == Settled(trace[i], c)
  {
    SettledIsClosed(trace, ops, i, c);
    if IsClosed(trace, i, c.reservationId) {
      RecordsAreFinal(trace, ops, i, i + 1, c.reservationId);
    }
  }

  /** Over a run, a call goes out once if it has settled its item and its request has gone out, and besides once for
      every confirmation that raised only after the call. */
  lemma {:induction false} CallsBalance(trace: seq<Db>, ops: seq<Op>, i: nat, c: Call)
    requires IsRun(trace, ops) && i < |trace|
    ensures SentBy(trace, ops, i)[c] ==
            (if SettledBySending(trace, ops, i, c) then 1 else 0) + Lost(trace, ops, i, c)
  {
    hide Settled, Sent, Loses, Inv;
    SettledIsClosed(trace, ops, i, c);
    if i > 0 {
      CallsBalance(trace, ops, i - 1, c);
      SettledIsClosed(trace, ops, i - 1, c);
      StaysSettled(trace, ops, i - 1, c);
      RunKeepsInv(trace, ops, i - 1);
      StepCalls(trace[0].inventory, trace[i - 1], ops[i - 1], c);
    } else {
      assert trace[0].calls == multiset{};
    }
  }

  lemma {:induction false} ReleasesAreNotLost(trace: seq<Db>, ops: seq<Op>, i: nat, c: Call)
    requires IsRun(trace, ops) && i < |trace| && c.kind == ReleaseHold
    ensures Lost(trace, ops, i, c) == 0
  {
    if i > 0 {
      ReleasesAreNotLost(trace, ops, i - 1, c);
    }
  }

  lemma {:induction false} OnlyOwnRefsAreLost(trace: seq<Db>, ops: seq<Op>, n: nat, i: nat, c: Call)
    requires IsRun(trace, ops) && n <= i < |trace| && trace[i].HasItem(c.reservationId, c.item)
    requires trace[i].ItemAt(c.reservationId, c.item).holdRef != Some(c.holdRef)
    ensures Lost(trace, ops, n, c) == 0
  {
    if n > 0 {
      OnlyOwnRefsAreLost(trace, ops, n - 1, i, c);
      if Loses(trace[n - 1], ops[n - 1], c) {
        RecordsAreFinal(trace, ops, n - 1, i, c.reservationId);
      }
    }
  }

  /** The calls for item `k` of reservation `r` that really went out. A release went out at most once, and exactly once
      if and only if the reservation was cancelled or expired and the request that did so sent it. A confirmation went
      out once if the reservation was confirmed and that request sent it, and besides once for every confirmation that
      raised only after this item's call had gone out. */
  lemma CallsReallyMade(trace: seq<Db>, ops: seq<Op>, i: nat, r: nat, k: nat, ref: string)
    requires IsRun(trace, ops) && i < |trace| && trace[i].HasItem(r, k)
    ensures
      var db, sent := trace[i], SentBy(trace, ops, i);
      var status, mine := db.reservations[r].status, db.ItemAt(r, k).holdRef == Some(ref);
      var release, confirmation := Call(ReleaseHold, r, k, ref), Call(ConfirmHold, r, k, ref);
      && sent[release] ==
         (if mine && status in [Cancelled, Expired] && WentOut(ops[ClosedAt(trace, ops, i, r)], release) then 1 else 0)
      && sent[confirmation] ==
         (if mine && status == Confirmed && WentOut(ops[ClosedAt(trace, ops, i, r)], confirmation) then 1 else 0)
         + (if mine then Lost(trace, ops, i, confirmation) else 0)
  {
    var confirmation, release := Call(ConfirmHold, r, k, ref), Call(ReleaseHold, r, k, ref);
    CallDiscipline(trace, ops, i, r, k, ref);
    CallsBalance(trace, ops, i, confirmation);
    CallsBalance(trace, ops, i, release);
    SettledIsClosed(trace, ops, i, confirmation);
    SettledIsClosed(trace, ops, i, release);
    ReleasesAreNotLost(trace, ops, i, release);
    if trace[i].ItemAt(r, k).holdRef != Some(ref) {
      OnlyOwnRefsAreLost(trace, ops, i, i, confirmation);
    }
  }

  // ----- When a confirmation that raises leaves no call behind -----

  predicate AtMostOneRef(items: seq<Item>) {
    forall j, k | 0 <= j < k < |items| :: items[j].holdRef.None? || items[k].holdRef.None?
  }

  /** Every exception came before its call went out. */
  predicate RaisesUnsent(outs: seq<ConfirmOutcome>) {
    forall k | 0 <= k < |outs| && outs[k].ConfirmRaised? :: !outs[k].sent
  }

  /** Answers that all settle, but for one exception. */
  function RaisesAt(n: nat, k: nat, sent: bool): (outs: seq<ConfirmOutcome>)
    ensures |outs| == n
  {
    seq(n, j => if j == k then ConfirmRaised(sent) else Answered)
  }

  lemma LeavesCallBehind(
    init: seq<Inventory>, db: Db, r: nat, now: int, outs: seq<ConfirmOutcome>, j: nat, k: nat)
    requires Inv(init, db) && ConfirmGuard(db, r, now).None? && |outs| == |db.reservations[r].items|
    requires k < |outs| && db.ItemAt(r, k).holdRef.Some? && outs[k].ConfirmRaised?
    requires GoesOut(db.reservations[r].items, outs, 0, j)
    ensures ConfirmTx(db, r, now, outs) == Err(ProviderRaised) && ConfirmTxSends(db, r, now, outs) != multiset{}
  {
    ConfirmEffect(init, db, r, now, outs);
    ConfirmCounts(init, db, r, now, outs, CallFor(ConfirmHold, db, r, j));
  }

  lemma LeavesNoneBehind(init: seq<Inventory>, db: Db, r: nat, now: int, outs: seq<ConfirmOutcome>)
    requires Inv(init, db) && ConfirmGuard(db, r, now).None? && |outs| == |db.reservations[r].items|
    requires ConfirmTx(db, r, now, outs).Err?
    requires AtMostOneRef(db.reservations[r].items) && RaisesUnsent(outs)
    ensures ConfirmTxSends(db, r, now, outs) == multiset{}
  {
    ConfirmEffect(init, db, r, now, outs);
    forall c: Call ensures ConfirmTxSends(db, r, now, outs)[c] == 0 {
      ConfirmCounts(init, db, r, now, outs, c);
    }
  }

  /** Whatever the answers, `confirm` leaves no call behind when it raises; or so when no exception comes
      after its call went out. */
  ghost predicate RaisesSilently(db: Db, r: nat, now: int, unsent: bool)
    requires r < |db.reservations|
  {
    forall outs: seq<ConfirmOutcome> |
      |outs| == |db.reservations[r].items| && ConfirmTx(db, r, now, outs).Err? && (unsent ==> RaisesUnsent(outs)) ::
      ConfirmTxSends(db, r, now, outs) == multiset{}
  }

  ghost predicate NoRef(items: seq<Item>) {
    forall k | 0 <= k < |items| :: items[k].holdRef.None?
  }

  lemma SilentWithoutRefs(init: seq<Inventory>, db: Db, r: nat, now: int)
    requires Inv(init, db) && ConfirmGuard(db, r, now).None?
    ensures RaisesSilently(db, r, now, false) <==> NoRef(db.reservations[r].items)
  {
    hide Inv, ConfirmTx, ConfirmTxSends;
    var items := db.reservations[r].items;
    if k: nat :| k < |items| && items[k].holdRef.Some? {
      LeavesCallBehind(init, db, r, now, RaisesAt(|items|, k, true), k, k);
    } else {
      forall outs: seq<ConfirmOutcome> | |outs| == |items| ensures ConfirmTx(db, r, now, outs).Ok? {
        ConfirmEffect(init, db, r, now, outs);
      }
    }
  }

  lemma SilentWithOneRef(init: seq<Inventory>, db: Db, r: nat, now: int)
    requires Inv(init, db) && ConfirmGuard(db, r, now).None?
    ensures RaisesSilently(db, r, now, true) <==> AtMostOneRef(db.reservations[r].items)
  {
    hide Inv, ConfirmTx, ConfirmTxSends;
    var items := db.reservations[r].items;
    if j: nat, k: nat :| j < k < |items| && items[j].holdRef.Some? && items[k].holdRef.Some? {
      LeavesCallBehind(init, db, r, now, RaisesAt(|items|, k, false), j, k);
    } else {
      forall outs: seq<ConfirmOutcome> | |outs| == |items| && ConfirmTx(db, r, now, outs).Err? && RaisesUnsent(outs)
        ensures ConfirmTxSends(db, r, now, outs) == multiset{}
      {
        LeavesNoneBehind(init, db, r, now, outs);
      }
    }
  }

  /** A `confirm` that raises leaves no call behind, whatever the answers, exactly when the reservation has no hold
      reference; and, when exceptions come before their calls go out, exactly when it has at most one. */
  lemma RaisingIsHarmless(trace: seq<Db>, ops: seq<Op>, i: nat, r: nat, now: int)
    requires IsRun(trace, ops) && i < |trace| && ConfirmGuard(trace[i], r, now).None?
    ensures RaisesSilently(trace[i], r, now, false) <==> NoRef(trace[i].reservations[r].items)
    ensures RaisesSilently(trace[i], r, now, true) <==> AtMostOneRef(trace[i].reservations[r].items)
  {
    RunKeepsInv(trace, ops, i);
    SilentWithoutRefs(trace[0].inventory, trace[i], r, now);
    SilentWithOneRef(trace[0].inventory, trace[i], r, now);
  }

  // ----- A confirmation that is half made -----

  /** Two products, each with stock at one external provider. */
  function Warehouse(stock: int): Db {
    Db(map[1 := "A", 2 := "B"], [Provider(External, true)],
       [Inventory(1, 0, stock, 0, None), Inventory(2, 0, stock, 0, None)], [], [], multiset{})
  }

  /** One unit of each product, held remotely as `a` and `b`. */
  function ReserveBoth(stock: int, userId: string, a: string, b: string, expiresAt: int): Op {
    var rows := Warehouse(stock).inventory;
    Create(userId, [Line(1, 1), Line(2, 1)], [Some(Read(0, rows[0])), Some(Read(1, rows[1]))], [Ref(a), Ref(b)],
           expiresAt)
  }

  lemma BothFit(stock: int, userId: string, a: string, b: string, expiresAt: int)
    requires 0 < stock
    ensures ValidOp(Warehouse(stock), ReserveBoth(stock, userId, a, b, expiresAt))
    ensures Attempt(Warehouse(stock), ReserveBoth(stock, userId, a, b, expiresAt)).Ok?
  {
    var db, op := Warehouse(stock), ReserveBoth(stock, userId, a, b, expiresAt);
    assert DistinctProducts(op.lines);
    NoDuplicatesMeansDistinct(op.lines);
    CreateEffect(db, op.userId, op.lines, op.seen, op.holds, op.expiresAt);
    forall j | 0 <= j < 2 ensures LineFits(db, op.lines[j], op.seen[j], op.holds[j]) {}
    assert RequestFits(db, op.lines, op.seen, op.holds);
  }

  /** The state that reserving both leaves: one pending reservation, with the two references. */
  ghost predicate HoldsBoth(db: Db, a: string, b: string, expiresAt: int) {
    && |db.reservations| == 1
    && var res := db.reservations[0];
       && res.status == Pending && res.expiresAt == expiresAt && |res.items| == 2
       && res.items[0].holdRef == Some(a) && res.items[1].holdRef == Some(b)
  }

  lemma BothReserved(stock: int, userId: string, a: string, b: string, expiresAt: int)
    requires 0 < stock
    ensures ValidOp(Warehouse(stock), ReserveBoth(stock, userId, a, b, expiresAt))
    ensures HoldsBoth(Apply(Warehouse(stock), ReserveBoth(stock, userId, a, b, expiresAt)), a, b, expiresAt)
  {
    var db, op := Warehouse(stock), ReserveBoth(stock, userId, a, b, expiresAt);
    BothFit(stock, userId, a, b, expiresAt);
    CreateEffect(db, op.userId, op.lines, op.seen, op.holds, op.expiresAt);
    var ids := IdsOf(op.seen);
    var items := HeldItems(db, ids, op.lines, op.holds, 0);
    assert items[0] == HeldItem(db, ids[0 + 0], op.lines[0 + 0], op.holds[0 + 0]);
    assert items[1] == HeldItem(db, ids[0 + 1], op.lines[0 + 1], op.holds[0 + 1]);
  }

  /** The provider refuses the connection at the second item: the confirmation is rolled back, and changes nothing
      but what was called. */
  lemma SecondRefused(init: seq<Inventory>, db: Db, a: string, b: string, expiresAt: int, now: int)
    requires Inv(init, db) && HoldsBoth(db, a, b, expiresAt) && now <= expiresAt
    ensures
      var refused := Op.Confirm(0, now, [Answered, ConfirmRaised(false)]);
      && ValidOp(db, refused) && Attempt(db, refused) == Err(ProviderRaised)
      && Loses(db, refused, Call(ConfirmHold, 0, 0, a))
  {
    var refused := Op.Confirm(0, now, [Answered, ConfirmRaised(false)]);
    ConfirmEffect(init, db, 0, now, refused.answers);
    assert refused.answers[1].ConfirmRaised?;
    HasOrderCounts(db.orders, 0);
    assert CountOrders(db.orders, 0) == 0;
  }

  lemma CancelledAfterwards(init: seq<Inventory>, db: Db, unsent: set<Call>, a: string, b: string, expiresAt: int)
    requires Inv(init, db) && HoldsBoth(db, a, b, expiresAt)
    ensures |Apply(db, Op.Cancel(0, unsent)).reservations| == 1
    ensures Apply(db, Op.Cancel(0, unsent)).reservations[0] == Closed(db.reservations[0], Cancelled)
  {
    hide Books, SameStock, OrdersAgree, CreateTx, ConfirmTx, SweepTx, SyncTx;
    CloseEffect(init, db, 0, Cancelled);
  }

  /** A run with a confirmation that is half made: the first hold is confirmed, and yet the confirmation is rolled
      back; a cancellation then releases that same hold. */
  lemma HalfConfirmed(stock: int, userId: string, a: string, b: string, expiresAt: int, now: int)
    returns (trace: seq<Db>, ops: seq<Op>)
    requires 0 < stock && now <= expiresAt
    ensures IsRun(trace, ops) && trace[0] == Warehouse(stock)
    ensures ops == [ReserveBoth(stock, userId, a, b, expiresAt), Op.Confirm(0, now, [Answered, ConfirmRaised(false)]),
                    Op.Cancel(0, {})]
    ensures Attempt(trace[1], ops[1]) == Err(ProviderRaised) && trace[2] == trace[1]
    ensures |trace[1].reservations| == |trace[3].reservations| == 1
    ensures trace[1].reservations[0].status == Pending && trace[3].reservations[0].status == Cancelled
    ensures SentBy(trace, ops, 2)[Call(ConfirmHold, 0, 0, a)] == 1
    ensures SentBy(trace, ops, 3)[Call(ConfirmHold, 0, 0, a)] == SentBy(trace, ops, 3)[Call(ReleaseHold, 0, 0, a)] == 1
    ensures trace[3].calls[Call(ConfirmHold, 0, 0, a)] == 0
  {
    hide Inv, CreateTx, ConfirmTx, CancelTx, SweepTx, SyncTx;
    var start, reserve := Warehouse(stock), ReserveBoth(stock, userId, a, b, expiresAt);
    var confirm, cancel := Op.Confirm(0, now, [Answered, ConfirmRaised(false)]), Op.Cancel(0, {});
    BothReserved(stock, userId, a, b, expiresAt);
    var held := Apply(start, reserve);
    RunKeepsInv([start, held], [reserve], 1);
    SecondRefused(start.inventory, held, a, b, expiresAt, now);
    CancelledAfterwards(start.inventory, held, {}, a, b, expiresAt);
    trace, ops := [start, held, held, Apply(held, cancel)], [reserve, confirm, cancel];
    CountsOfHalf(trace, ops, a);
  }

  lemma LostOnce(trace: seq<Db>, ops: seq<Op>, c: Call)
    requires IsRun(trace, ops) && |ops| == 3 && ops[0].Create? && ops[2].Cancel? && Loses(trace[1], ops[1], c)
    ensures Lost(trace, ops, 2, c) == 1 && Lost(trace, ops, 3, c) == 1
  {
    hide Attempt, ValidOp;
    assert Lost(trace, ops, 0, c) == 0;
    assert Lost(trace, ops, 1, c) == 0;
  }

  lemma CountsOfHalf(trace: seq<Db>, ops: seq<Op>, a: string)
    requires IsRun(trace, ops) && |ops| == 3 && ops[0].Create? && ops[2] == Op.Cancel(0, {})
    requires Loses(trace[1], ops[1], Call(ConfirmHold, 0, 0, a)) && trace[2] == trace[1]
    requires trace[2].HasItem(0, 0) && trace[2].reservations[0].status == Pending
    requires trace[3].HasItem(0, 0) && trace[3].reservations[0].status == Cancelled
    requires trace[2].ItemAt(0, 0).holdRef == trace[3].ItemAt(0, 0).holdRef == Some(a)
    ensures SentBy(trace, ops, 2)[Call(ConfirmHold, 0, 0, a)] == 1
    ensures SentBy(trace, ops, 3)[Call(ConfirmHold, 0, 0, a)] == SentBy(trace, ops, 3)[Call(ReleaseHold, 0, 0, a)] == 1
    ensures trace[3].calls[Call(ConfirmHold, 0, 0, a)] == 0
  {
    hide Attempt, ValidOp, SentBy, Sent, Lost, Loses, Apply;
    LostOnce(trace, ops, Call(ConfirmHold, 0, 0, a));
    assert ClosedAt(trace, ops, 3, 0) == 2;
    CallsReallyMade(trace, ops, 2, 0, 0, a);
    CallsReallyMade(trace, ops, 3, 0, 0, a);
    CallDiscipline(trace, ops, 3, 0, 0, a);
  }

  /** A run in which no release goes out, for want of the capability or of a connection. The cancellation succeeds all
      the same, and the hold stays with the provider. */
  lemma CancelledUnreleased(stock: int, userId: string, a: string, b: string, expiresAt: int)
    returns (trace: seq<Db>, ops: seq<Op>)
    requires 0 < stock
    ensures IsRun(trace, ops) && trace[0] == Warehouse(stock)
    ensures ops == [ReserveBoth(stock, userId, a, b, expiresAt), Op.Cancel(0, {Call(ReleaseHold, 0, 0, a)})]
    ensures trace[2].HasItem(0, 0) && trace[2].reservations[0].status == Cancelled
    ensures trace[2].ItemAt(0, 0).holdRef == Some(a) && trace[2].ItemAt(0, 0).status == Released
    ensures SentBy(trace, ops, 2)[Call(ReleaseHold, 0, 0, a)] == 0
  {
    hide Inv, CreateTx, ConfirmTx, CancelTx, SweepTx, SyncTx, SentBy, Sent;
    var unsent := {Call(ReleaseHold, 0, 0, a)};
    var start, reserve := Warehouse(stock), ReserveBoth(stock, userId, a, b, expiresAt);
    BothReserved(stock, userId, a, b, expiresAt);
    var held := Apply(start, reserve);
    RunKeepsInv([start, held], [reserve], 1);
    CancelledAfterwards(start.inventory, held, unsent, a, b, expiresAt);
    trace, ops := [start, held, Apply(held, Op.Cancel(0, unsent))], [reserve, Op.Cancel(0, unsent)];
    assert ClosedAt(trace, ops, 2, 0) == 1;
    CallsReallyMade(trace, ops, 2, 0, 0, a);
  }
}
