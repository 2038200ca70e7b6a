/** The requests a database serves, one transaction each. */
module Operations {
  import opened Tables
  import opened Schemas
  import opened Queries
  import opened Transactions

  /** A request, together with what the world answers while it runs: the clock,
      the unlocked reads, the providers, and the batch the sweep's query picked. `unsent` are the release calls
      whose requests do not go out. */
  datatype Op =
    | Create(userId: string, lines: seq<Line>, seen: seq<Option<Read>>, holds: seq<HoldOutcome>, expiresAt: int)
    | Confirm(rid: int, now: int, answers: seq<ConfirmOutcome>)
    | Cancel(rid: int, unsent: set<Call>)
    | Sweep(now: int, batch: seq<nat>, unsent: set<Call>)
    | Sync(pid: int, stocks: seq<StockOutcome>, now: int)

  /** An unlocked read may be stale, but a row never changes its product. */
  ghost predicate ReadsProducts(db: Db, lines: seq<Line>, seen: seq<Option<Read>>)
    requires |seen| == |lines|
  {
    forall j | 0 <= j < |lines| && seen[j].Some? && seen[j].value.id < |db.inventory| ::
      db.inventory[seen[j].value.id].productId == lines[j].productId
  }

  ghost predicate SweepsExpired(db: Db, now: int, batch: seq<nat>) {
    && (forall b | 0 <= b < |batch| :: IsExpiredPending(db, now, batch[b]))
    && (forall b, c | 0 <= b < c < |batch| :: batch[b] != batch[c])
  }

  ghost predicate ValidOp(db: Db, op: Op) {
    match op
    case Create(_, lines, seen, holds, _) =>
      |seen| == |lines| == |holds| && ValidRequest(lines) && ReadsProducts(db, lines, seen)
    case Confirm(rid, _, answers) => AnswersEachItem(db, rid, answers)
    case Cancel(_, _) => true
    case Sweep(now, batch, _) => SweepsExpired(db, now, batch)
    case Sync(_, stocks, _) => |stocks| == |db.inventory|
  }

  /** The transaction of a request, up to its commit or its exception. */
  function Attempt(db: Db, op: Op): Tx<Db>
    requires ValidOp(db, op)
  {
    match op
    case Create(userId, lines, seen, holds, expiresAt) => CreateTx(db, userId, lines, seen, holds, expiresAt)
    case Confirm(rid, now, answers) => ConfirmTx(db, rid, now, answers)
    case Cancel(rid, _) => CancelTx(db, rid)
    case Sweep(_, batch, _) => SweepTx(db, batch)
    case Sync(pid, stocks, now) =>
      var done :- SyncTx(db, pid, stocks, now);
      Ok(done.0)
  }

  /** The committed database after a request: an exception rolls everything back. */
  function Apply(db: Db, op: Op): Db
    requires ValidOp(db, op)
  {
    var tx := Attempt(db, op);
    if tx.Ok? then tx.value else db
  }

  /** The settling calls of a request that go out to providers: an exception takes none of them back. */
  function Sent(db: Db, op: Op): multiset<Call>
    requires ValidOp(db, op)
  {
    match op
    case Confirm(rid, now, answers) => ConfirmTxSends(db, rid, now, answers)
    case Cancel(rid, unsent) => CancelTxSends(db, rid, unsent)
    case Sweep(_, batch, unsent) => SweepFromSends(db, batch, 0, unsent)
    case _ => multiset{}
  }
}
