/** What a caller of `create` may count on, and where the code differs from its documentation. */
module Promises {
  import opened Tables
  import opened Schemas
  import opened Queries
  import opened Transactions
  import opened Operations
  import opened Booking

  // ----- create alone: exactly when there is stock -----

  /** The unlocked reads of a `create` that nothing interrupts: current rows, best of their product. */
  ghost predicate SerialReads(db: Db, lines: seq<Line>, seen: seq<Option<Read>>) {
    && |seen| == |lines|
    && forall j | 0 <= j < |lines| ::
         match seen[j]
         case None => IsBest(db.inventory, lines[j].productId, None)
         case Some(read) =>
           IsBest(db.inventory, lines[j].productId, Some(read.id)) && read.row == db.inventory[read.id]
  }

  lemma BestReadsAreSerial(db: Db, lines: seq<Line>)
    ensures SerialReads(db, lines, BestReads(db.inventory, lines))
    ensures ReadsProducts(db, lines, BestReads(db.inventory, lines))
  {
    var seen := BestReads(db.inventory, lines);
    forall j | 0 <= j < |lines|
      ensures IsBest(db.inventory, lines[j].productId, if seen[j].None? then None else Some(seen[j].value.id))
      ensures seen[j].Some? ==> seen[j].value.row == db.inventory[seen[j].value.id]
    {
      assert seen[j] == BestRead(db.inventory, lines[j].productId);
    }
  }

  ghost predicate ForeignKeys(db: Db) {
    forall i | 0 <= i < |db.inventory| :: db.inventory[i].providerId < |db.providers|
  }

  /** Some row of the product has the quantity free. */
  predicate InStock(db: Db, line: Line) {
    exists i | 0 <= i < |db.inventory| ::
      db.inventory[i].productId == line.productId && line.qty <= db.inventory[i].Effective()
  }

  /** The external rows that `create` picked have providers that do not refuse. */
  ghost predicate RemotesAccept(db: Db, seen: seq<Option<Read>>, outs: seq<HoldOutcome>)
    requires |seen| == |outs|
  {
    forall j | 0 <= j < |seen| && seen[j].Some? && seen[j].value.id < |db.inventory|
               && !db.IsInternal(seen[j].value.id) ::
      RemoteAccepts(outs[j])
  }

  lemma InStockByBest(db: Db, line: Line, best: Option<nat>)
    requires IsBest(db.inventory, line.productId, best)
    ensures InStock(db, line) <==> best.Some? && line.qty <= db.inventory[best.value].Effective()
  {
    if InStock(db, line) {
      var i :| 0 <= i < |db.inventory| &&
               db.inventory[i].productId == line.productId && line.qty <= db.inventory[i].Effective();
      assert best.Some?;
    }
  }

  /** Every product is in stock, and no internal row picked for one has less than twice the quantity. */
  predicate Served(db: Db, lines: seq<Line>, seen: seq<Option<Read>>)
    requires |seen| == |lines|
  {
    forall j | 0 <= j < |lines| ::
      && InStock(db, lines[j])
      && !(seen[j].Some? && seen[j].value.id < |db.inventory| && db.IsInternal(seen[j].value.id)
           && db.inventory[seen[j].value.id].Effective() < 2 * lines[j].qty)
  }

  /** A `create` that runs alone, whose remote providers accept or merely time out, succeeds exactly when every
      product is in stock and no internal row it picked has less than twice the quantity. */
  lemma CreateComplete(
    db: Db, userId: string, lines: seq<Line>, seen: seq<Option<Read>>, outs: seq<HoldOutcome>, expiresAt: int)
    requires ForeignKeys(db) && ValidRequest(lines) && SerialReads(db, lines, seen) && |outs| == |lines|
    requires RemotesAccept(db, seen, outs)
    ensures CreateTx(db, userId, lines, seen, outs, expiresAt).Ok? <==> Served(db, lines, seen)
  {
    assert ReadsProducts(db, lines, seen);
    CreateEffect(db, userId, lines, seen, outs, expiresAt);
    forall j | 0 <= j < |lines|
      ensures LineFits(db, lines[j], seen[j], outs[j]) <==>
              && InStock(db, lines[j])
              && !(seen[j].Some? && db.IsInternal(seen[j].value.id) &&
                   db.inventory[seen[j].value.id].Effective() < 2 * lines[j].qty)
    {
      assert IsBest(db.inventory, lines[j].productId, if seen[j].None? then None else Some(seen[j].value.id));
      InStockByBest(db, lines[j], if seen[j].None? then None else Some(seen[j].value.id));
    }
  }

  /** The same of the request as the service runs it, with the reads that its query makes. */
  lemma BestCreateComplete(db: Db, userId: string, lines: seq<Line>, outs: seq<HoldOutcome>, expiresAt: int)
    requires ValidRequest(lines) && |outs| == |lines|
    ensures
      var seen := BestReads(db.inventory, lines);
      var op := Create(userId, lines, seen, outs, expiresAt);
      && ValidOp(db, op)
      && (ForeignKeys(db) && RemotesAccept(db, seen, outs) ==> (Attempt(db, op).Ok? <==> Served(db, lines, seen)))
  {
    BestReadsAreSerial(db, lines);
    if ForeignKeys(db) && RemotesAccept(db, BestReads(db.inventory, lines), outs) {
      CreateComplete(db, userId, lines, BestReads(db.inventory, lines), outs, expiresAt);
    }
  }

  /** The documented promise, on external rows: there is stock for every product, or the request is refused. */
  lemma CreateCompleteOnExternalRows(
    db: Db, userId: string, lines: seq<Line>, seen: seq<Option<Read>>, outs: seq<HoldOutcome>, expiresAt: int)
    requires ForeignKeys(db) && ValidRequest(lines) && SerialReads(db, lines, seen) && |outs| == |lines|
    requires RemotesAccept(db, seen, outs)
    requires forall j | 0 <= j < |lines| && seen[j].Some? :: !db.IsInternal(seen[j].value.id)
    ensures CreateTx(db, userId, lines, seen, outs, expiresAt).Ok? <==>
            forall j | 0 <= j < |lines| :: InStock(db, lines[j])
  {
    CreateComplete(db, userId, lines, seen, outs, expiresAt);
  }

  // ----- What a refusal says -----

  /** The unlocked read promised enough. */
  predicate Promised(line: Line, seen: Option<Read>) {
    seen.Some? && line.qty <= seen.value.row.qtyAvailable - seen.value.row.qtyReserved
  }

  /** The locked row still has enough. */
  predicate StillThere(inventory: seq<Inventory>, line: Line, id: nat) {
    id < |inventory| && line.qty <= inventory[id].qtyAvailable - inventory[id].qtyReserved
  }

  /** The exception of a provider that does not grant the line. */
  predicate ProviderRefuses(db: Db, id: nat, line: Line, out: HoldOutcome, e: Error)
    requires id < |db.inventory|
  {
    match db.ProviderOf(db.inventory[id].providerId)
    case None => e == NoProvider
    case Some(provider) =>
      if provider.kind.Internal? then e == InsufficientStock(line.productId)
      else if out.HoldInsufficient? then e == InsufficientStock(line.productId)
      else out.HoldRaised? && e == ProviderRaised
  }

  lemma {:induction false} PreflightNamesFirst(seen: seq<Option<Read>>, lines: seq<Line>, k: nat)
    requires |seen| == |lines| && k <= |lines| && PreflightError(seen, lines, k).Some?
    ensures exists j | k <= j < |lines| ::
              && !Promised(lines[j], seen[j]) && (forall i | k <= i < j :: Promised(lines[i], seen[i]))
              && PreflightError(seen, lines, k) == Some(InsufficientStock(lines[j].productId))
    decreases |lines| - k
  {
    if k < |lines| && Promised(lines[k], seen[k]) {
      PreflightNamesFirst(seen, lines, k + 1);
      var j :| k < j < |lines| && !Promised(lines[j], seen[j]) &&
               (forall i | k < i < j :: Promised(lines[i], seen[i])) &&
               PreflightError(seen, lines, k + 1) == Some(InsufficientStock(lines[j].productId));
      assert forall i | k <= i < j :: Promised(lines[i], seen[i]);
    } else {
      assert k < |lines|;
    }
  }

  lemma {:induction false} LockNamesFirst(inventory: seq<Inventory>, ids: seq<nat>, lines: seq<Line>, k: nat)
    requires |ids| == |lines| && k <= |lines| && LockError(inventory, ids, lines, k).Some?
    ensures exists j | k <= j < |lines| ::
              && !StillThere(inventory, lines[j], ids[j])
              && (forall i | k <= i < j :: StillThere(inventory, lines[i], ids[i]))
              && LockError(inventory, ids, lines, k) == Some(InsufficientStock(lines[j].productId))
    decreases |lines| - k
  {
    if k < |lines| && StillThere(inventory, lines[k], ids[k]) {
      LockNamesFirst(inventory, ids, lines, k + 1);
      var j :| k < j < |lines| && !StillThere(inventory, lines[j], ids[j]) &&
               (forall i | k < i < j :: StillThere(inventory, lines[i], ids[i])) &&
               LockError(inventory, ids, lines, k + 1) == Some(InsufficientStock(lines[j].productId));
      assert forall i | k <= i < j :: StillThere(inventory, lines[i], ids[i]);
    } else {
      assert k < |lines|;
    }
  }

  /** The calls fail at line `j`, and not before. */
  ghost predicate HoldFailsAt(
    db: Db, r: nat, ids: seq<nat>, lines: seq<Line>, outs: seq<HoldOutcome>, k: nat, j: nat)
    requires r < |db.reservations| && |ids| == |lines| == |outs| && k <= j < |ids| && InRange(ids, |db.inventory|)
  {
    && HoldFrom(db, r, ids, lines, outs, k).Err?
    && !Grants(db, ids[j], lines[j], outs[j], 1) && (forall i | k <= i < j :: Grants(db, ids[i], lines[i], outs[i], 1))
    && ProviderRefuses(db, ids[j], lines[j], outs[j], HoldFrom(db, r, ids, lines, outs, k).error)
  }

  lemma HoldFailsLater(
    db: Db, next: Db, r: nat, ids: seq<nat>, lines: seq<Line>, outs: seq<HoldOutcome>, k: nat, j: nat)
    requires r < |db.reservations| == |next.reservations| && |ids| == |lines| == |outs| && k < j < |ids|
    requires Distinct(ids) && InRange(ids, |db.inventory|) && |next.inventory| == |db.inventory|
    requires HoldItem(db, r, ids[k], lines[k], outs[k]) == Ok(next)
    requires HoldFailsAt(next, r, ids, lines, outs, k + 1, j)
    ensures HoldFailsAt(db, r, ids, lines, outs, k, j)
  {
    HoldStep(db, next, r, ids, lines, outs, k);
    HoldItemEffect(db, r, ids[k], lines[k], outs[k]);
    forall i | k <= i < j ensures Grants(db, ids[i], lines[i], outs[i], 1) {
      assert i > k ==> Grants(next, ids[i], lines[i], outs[i], 1);
    }
  }

  lemma {:induction false} HoldNamesFirst(
    db: Db, r: nat, ids: seq<nat>, lines: seq<Line>, outs: seq<HoldOutcome>, k: nat) returns (j: nat)
    requires r < |db.reservations| && |ids| == |lines| == |outs| && k <= |ids|
    requires Distinct(ids) && InRange(ids, |db.inventory|) && HoldFrom(db, r, ids, lines, outs, k).Err?
    ensures k <= j < |ids| && HoldFailsAt(db, r, ids, lines, outs, k, j)
    decreases |ids| - k
  {
    var one := HoldItem(db, r, ids[k], lines[k], outs[k]);
    if one.Ok? {
      HoldStep(db, one.value, r, ids, lines, outs, k);
      j := HoldNamesFirst(one.value, r, ids, lines, outs, k + 1);
      HoldFailsLater(db, one.value, r, ids, lines, outs, k, j);
    } else {
      HoldItemEffect(db, r, ids[k], lines[k], outs[k]);
      j := k;
    }
  }

  /** A refused `create` names the first line that fails the first phase that any line fails: short on the unlocked
      reads; short under the locks; or not granted by its provider, which on an internal row takes the quantity
      twice. */
  ghost predicate NamesFirst(
    db: Db, lines: seq<Line>, seen: seq<Option<Read>>, outs: seq<HoldOutcome>, j: nat, e: Error)
    requires |seen| == |lines| == |outs| && j < |lines|
  {
    if !(forall i | 0 <= i < |lines| :: Promised(lines[i], seen[i])) then
      && !Promised(lines[j], seen[j]) && (forall i | 0 <= i < j :: Promised(lines[i], seen[i]))
      && e == InsufficientStock(lines[j].productId)
    else if !(forall i | 0 <= i < |lines| :: StillThere(db.inventory, lines[i], seen[i].value.id)) then
      && !StillThere(db.inventory, lines[j], seen[j].value.id)
      && (forall i | 0 <= i < j :: StillThere(db.inventory, lines[i], seen[i].value.id))
      && e == InsufficientStock(lines[j].productId)
    else
      && !Grants(db, seen[j].value.id, lines[j], outs[j], 2)
      && (forall i | 0 <= i < j :: Grants(db, seen[i].value.id, lines[i], outs[i], 2))
      && ProviderRefuses(db, seen[j].value.id, lines[j], outs[j], e)
  }

  lemma RefusalNamesLine(
    db: Db, userId: string, lines: seq<Line>, seen: seq<Option<Read>>, outs: seq<HoldOutcome>, expiresAt: int)
    requires |seen| == |lines| == |outs| && ValidRequest(lines) && ReadsProducts(db, lines, seen)
    requires CreateTx(db, userId, lines, seen, outs, expiresAt).Err?
    ensures exists j: nat | j < |lines| ::
              NamesFirst(db, lines, seen, outs, j, CreateTx(db, userId, lines, seen, outs, expiresAt).error)
  {
    if PreflightError(seen, lines, 0).Some? {
      PreflightNamesFirst(seen, lines, 0);
      var j: nat :| j < |lines| && !Promised(lines[j], seen[j]) &&
               (forall i | 0 <= i < j :: Promised(lines[i], seen[i])) &&
               PreflightError(seen, lines, 0) == Some(InsufficientStock(lines[j].productId));
      assert NamesFirst(db, lines, seen, outs, j, InsufficientStock(lines[j].productId));
    } else {
      assert forall i | 0 <= i < |lines| :: Promised(lines[i], seen[i]);
      LockedRefusal(db, userId, lines, seen, outs, expiresAt);
    }
  }

  lemma LockedRefusal(
    db: Db, userId: string, lines: seq<Line>, seen: seq<Option<Read>>, outs: seq<HoldOutcome>, expiresAt: int)
    requires |seen| == |lines| == |outs| && ValidRequest(lines) && ReadsProducts(db, lines, seen)
    requires PreflightError(seen, lines, 0).None? && (forall i | 0 <= i < |lines| :: Promised(lines[i], seen[i]))
    requires CreateTx(db, userId, lines, seen, outs, expiresAt).Err?
    ensures exists j: nat | j < |lines| ::
              NamesFirst(db, lines, seen, outs, j, CreateTx(db, userId, lines, seen, outs, expiresAt).error)
  {
    hide HoldFrom, ReserveFrom, ValidRequest, Grants, ProviderRefuses;
    var ids := IdsOf(seen);
    if LockError(db.inventory, ids, lines, 0).Some? {
      LockNamesFirst(db.inventory, ids, lines, 0);
      var j: nat :| j < |lines| && !StillThere(db.inventory, lines[j], ids[j]) &&
               (forall i | 0 <= i < j :: StillThere(db.inventory, lines[i], ids[i])) &&
               LockError(db.inventory, ids, lines, 0) == Some(InsufficientStock(lines[j].productId));
      assert forall i | 0 <= i < j :: StillThere(db.inventory, lines[i], seen[i].value.id) by {
        assert forall i | 0 <= i < j :: ids[i] == seen[i].value.id;
      }
      assert NamesFirst(db, lines, seen, outs, j, InsufficientStock(lines[j].productId));
    } else {
      assert forall i | 0 <= i < |lines| :: StillThere(db.inventory, lines[i], seen[i].value.id) by {
        assert forall i | 0 <= i < |lines| :: ids[i] == seen[i].value.id;
      }
      HoldRefusal(db, userId, lines, seen, outs, expiresAt);
    }
  }

  /** The line that failed once its row was reserved is the first that its provider does not grant. */
  lemma RefusedAt(
    db: Db, ready: Db, lines: seq<Line>, seen: seq<Option<Read>>, ids: seq<nat>, outs: seq<HoldOutcome>,
    j: nat, e: Error)
    requires |ids| == |seen| == |lines| == |outs| && j < |lines| && ready.providers == db.providers
    requires |ready.inventory| == |db.inventory| && InRange(ids, |db.inventory|)
    requires forall i | 0 <= i < |lines| :: seen[i].Some? && ids[i] == seen[i].value.id
    requires forall i | 0 <= i < |lines| :: Promised(lines[i], seen[i])
    requires forall i | 0 <= i < |lines| :: StillThere(db.inventory, lines[i], seen[i].value.id)
    requires forall i | 0 <= i < |lines| ::
               && ready.inventory[ids[i]] == db.inventory[ids[i]].Reserve(lines[i].qty)
               && Grants(ready, ids[i], lines[i], outs[i], 1) == Grants(db, ids[i], lines[i], outs[i], 2)
    requires !Grants(ready, ids[j], lines[j], outs[j], 1)
    requires forall i | 0 <= i < j :: Grants(ready, ids[i], lines[i], outs[i], 1)
    requires ProviderRefuses(ready, ids[j], lines[j], outs[j], e)
    ensures NamesFirst(db, lines, seen, outs, j, e)
  {
    hide Grants;
    forall i | 0 <= i < j ensures Grants(db, seen[i].value.id, lines[i], outs[i], 2) {
      assert Grants(ready, ids[i], lines[i], outs[i], 1);
    }
  }

  lemma HoldRefusal(
    db: Db, userId: string, lines: seq<Line>, seen: seq<Option<Read>>, outs: seq<HoldOutcome>, expiresAt: int)
    requires |seen| == |lines| == |outs| && ValidRequest(lines) && ReadsProducts(db, lines, seen)
    requires PreflightError(seen, lines, 0).None? && LockError(db.inventory, IdsOf(seen), lines, 0).None?
    requires forall i | 0 <= i < |lines| :: Promised(lines[i], seen[i])
    requires forall i | 0 <= i < |lines| :: StillThere(db.inventory, lines[i], seen[i].value.id)
    requires CreateTx(db, userId, lines, seen, outs, expiresAt).Err?
    ensures exists j: nat | j < |lines| ::
              NamesFirst(db, lines, seen, outs, j, CreateTx(db, userId, lines, seen, outs, expiresAt).error)
  {
    var ids := IdsOf(seen);
    DistinctProductsDistinctRows(db, lines, seen, outs);
    var ready := Opened(db, userId, lines, ids, expiresAt);
    OpenedRows(db, userId, lines, ids, outs, expiresAt);
    hide HoldFrom, Grants, ProviderRefuses, NamesFirst, HeldRows, BookedRows, HeldItem, Opened, Promised, StillThere;
    var j := HoldNamesFirst(ready, |db.reservations|, ids, lines, outs, 0);
    RefusedAt(db, ready, lines, seen, ids, outs, j, HoldFrom(ready, |db.reservations|, ids, lines, outs, 0).error);
    assert NamesFirst(db, lines, seen, outs, j, CreateTx(db, userId, lines, seen, outs, expiresAt).error);
  }

  // ----- What is stored for each line -----

  /** The item of a line on this row, by the answer of its provider: held with or without a reference, or failed with
      a message. After a refusal or an exception there is none. */
  predicate Stores(db: Db, id: nat, line: Line, out: HoldOutcome, item: Item)
    requires id < |db.inventory|
  {
    var providerId := db.inventory[id].providerId;
    if db.ProviderOf(providerId).Some? && db.ProviderOf(providerId).value.kind.Internal?
    then item == Item(line.productId, id, providerId, line.qty, Held, None, None)
    else match out
      case Ref(ref) => item == Item(line.productId, id, providerId, line.qty, Held, Some(ref), None)
      case NullRef => item == Item(line.productId, id, providerId, line.qty, Held, None, None)
      case HoldTimedOut(m) => item == Item(line.productId, id, providerId, line.qty, ProviderFailed, None, Some(m))
      case HoldUnavailable(m) => item == Item(line.productId, id, providerId, line.qty, ProviderFailed, None, Some(m))
      case HoldInsufficient => false
      case HoldRaised => false
  }

  lemma StoresByAnswer(db: Db, id: nat, line: Line, out: HoldOutcome)
    requires id < |db.inventory| && Grants(db, id, line, out, 2)
    ensures Stores(db, id, line, out, HeldItem(db, id, line, out))
  {}

  /** A `create` that succeeds stores one item for each line, as its provider answered. */
  lemma ItemsTellAnswers(
    db: Db, userId: string, lines: seq<Line>, seen: seq<Option<Read>>, outs: seq<HoldOutcome>, expiresAt: int)
    requires |seen| == |lines| == |outs| && ValidRequest(lines) && ReadsProducts(db, lines, seen)
    requires CreateTx(db, userId, lines, seen, outs, expiresAt).Ok?
    ensures
      var after := CreateTx(db, userId, lines, seen, outs, expiresAt).value;
      && |after.reservations| == |db.reservations| + 1
      && var items := after.reservations[|db.reservations|].items;
         && |items| == |lines|
         && forall j | 0 <= j < |lines| ::
              seen[j].Some? && seen[j].value.id < |db.inventory|
              && Stores(db, seen[j].value.id, lines[j], outs[j], items[j])
  {
    hide CreateTx, Stores, HeldItem, Rewritten, BookedRows;
    CreateEffect(db, userId, lines, seen, outs, expiresAt);
    var ids := IdsOf(seen);
    forall j | 0 <= j < |lines|
      ensures seen[j].Some? && seen[j].value.id < |db.inventory|
      ensures Stores(db, seen[j].value.id, lines[j], outs[j], HeldItems(db, ids, lines, outs, 0)[j])
    {
      assert LineFits(db, lines[j], seen[j], outs[j]);
      StoresByAnswer(db, seen[j].value.id, lines[j], outs[j]);
      assert HeldItems(db, ids, lines, outs, 0)[j] == HeldItem(db, ids[0 + j], lines[0 + j], outs[0 + j]);
    }
  }

  // ----- Fail-open holds -----

  ghost predicate SameButOutcome(a: Item, b: Item) {
    b == a.(status := b.status, holdRef := b.holdRef, errorMessage := b.errorMessage)
  }

  lemma SameFit(db: Db, lines: seq<Line>, seen: seq<Option<Read>>, outs: seq<HoldOutcome>, k: nat, out: HoldOutcome)
    requires |seen| == |lines| == |outs| && k < |outs| && RemoteAccepts(outs[k]) && RemoteAccepts(out)
    ensures RequestFits(db, lines, seen, outs) <==> RequestFits(db, lines, seen, outs[k := out])
  {
    forall j | 0 <= j < |lines|
      ensures LineFits(db, lines[j], seen[j], outs[j]) <==> LineFits(db, lines[j], seen[j], outs[k := out][j])
    {}
  }

  lemma FailedItem(db: Db, lines: seq<Line>, ids: seq<nat>, outs: seq<HoldOutcome>, k: nat, out: HoldOutcome)
    requires |ids| == |lines| == |outs| && InRange(ids, |db.inventory|) && k < |outs|
    requires !db.IsInternal(ids[k]) && (out.HoldTimedOut? || out.HoldUnavailable?)
    ensures
      var answered, failed := HeldItems(db, ids, lines, outs, 0), HeldItems(db, ids, lines, outs[k := out], 0);
      && |answered| == |failed| == |lines|
      && failed[k].status == ProviderFailed && failed[k].holdRef == None && failed[k].errorMessage == Some(out.message)
      && SameButOutcome(answered[k], failed[k])
      && forall j | 0 <= j < |lines| && j != k :: failed[j] == answered[j]
  {
    var answered, failed := HeldItems(db, ids, lines, outs, 0), HeldItems(db, ids, lines, outs[k := out], 0);
    forall j | 0 <= j < |lines|
      ensures answered[j] == HeldItem(db, ids[j], lines[j], outs[j])
      ensures failed[j] == HeldItem(db, ids[j], lines[j], outs[k := out][j])
    {
      assert answered[j] == HeldItem(db, ids[0 + j], lines[0 + j], outs[0 + j]);
    }
  }

  /** Two records of one request, whose item `k` timed out or was unavailable in the second. */
  ghost predicate FailedAt(answered: Reservation, failed: Reservation, k: nat, out: HoldOutcome)
    requires out.HoldTimedOut? || out.HoldUnavailable?
  {
    && failed == answered.(items := failed.items)
    && k < |failed.items| == |answered.items|
    && failed.items[k].status == ProviderFailed
    && failed.items[k].holdRef == None
    && failed.items[k].errorMessage == Some(out.message)
    && SameButOutcome(answered.items[k], failed.items[k])
    && forall j | 0 <= j < |failed.items| && j != k :: failed.items[j] == answered.items[j]
  }

  lemma BookedEitherWay(
    db: Db, a: Db, b: Db, userId: string, lines: seq<Line>, ids: seq<nat>, outs: seq<HoldOutcome>, k: nat,
    out: HoldOutcome, expiresAt: int)
    requires |ids| == |lines| == |outs| && InRange(ids, |db.inventory|) && k < |outs|
    requires !db.IsInternal(ids[k]) && (out.HoldTimedOut? || out.HoldUnavailable?)
    requires Booked(db, a, userId, lines, ids, expiresAt, HeldItems(db, ids, lines, outs, 0))
    requires Booked(db, b, userId, lines, ids, expiresAt, HeldItems(db, ids, lines, outs[k := out], 0))
    ensures
      var n := |db.reservations|;
      && |a.reservations| == |b.reservations| == n + 1
      && b == a.(reservations := b.reservations)
      && b.reservations[..n] == a.reservations[..n]
      && FailedAt(a.reservations[n], b.reservations[n], k, out)
  {
    RewrittenUnique(db.inventory, a.inventory, b.inventory, ids, BookedRows(db, ids, lines));
    FailedItem(db, lines, ids, outs, k, out);
  }

  /** What the two answers lead to, when both are accepted. */
  ghost predicate FailsOpen(db: Db, answered: Tx<Db>, failed: Tx<Db>, k: nat, out: HoldOutcome)
    requires out.HoldTimedOut? || out.HoldUnavailable?
  {
    && (answered.Ok? <==> failed.Ok?)
    && (answered.Ok? ==>
          var n := |db.reservations|;
          && |answered.value.reservations| == |failed.value.reservations| == n + 1
          && failed.value == answered.value.(reservations := failed.value.reservations)
          && failed.value.reservations[..n] == answered.value.reservations[..n]
          && FailedAt(answered.value.reservations[n], failed.value.reservations[n], k, out))
  }

  lemma SameRequestFits(
    db: Db, userId: string, lines: seq<Line>, seen: seq<Option<Read>>, outs: seq<HoldOutcome>, k: nat,
    out: HoldOutcome, expiresAt: int)
    requires |seen| == |lines| == |outs| && ValidRequest(lines) && ReadsProducts(db, lines, seen) && k < |outs|
    requires RemoteAccepts(outs[k]) && RemoteAccepts(out)
    ensures CreateTx(db, userId, lines, seen, outs, expiresAt).Ok? <==>
            CreateTx(db, userId, lines, seen, outs[k := out], expiresAt).Ok?
  {
    hide CreateTx, RequestFits;
    CreateEffect(db, userId, lines, seen, outs, expiresAt);
    CreateEffect(db, userId, lines, seen, outs[k := out], expiresAt);
    SameFit(db, lines, seen, outs, k, out);
  }

  /** A remote hold that times out or is unavailable costs the request nothing but that item's status and
      message: with any other accepted answer the same requests succeed, and the same rows are written. */
  lemma HoldsFailOpen(
    db: Db, userId: string, lines: seq<Line>, seen: seq<Option<Read>>, outs: seq<HoldOutcome>, k: nat,
    out: HoldOutcome, expiresAt: int)
    requires |seen| == |lines| == |outs| && ValidRequest(lines) && ReadsProducts(db, lines, seen) && k < |outs|
    requires RemoteAccepts(outs[k]) && (out.HoldTimedOut? || out.HoldUnavailable?)
    requires seen[k].Some? && seen[k].value.id < |db.inventory| && !db.IsInternal(seen[k].value.id)
    ensures FailsOpen(db, CreateTx(db, userId, lines, seen, outs, expiresAt),
                      CreateTx(db, userId, lines, seen, outs[k := out], expiresAt), k, out)
  {
    hide CreateTx, Booked, FailedAt;
    SameRequestFits(db, userId, lines, seen, outs, k, out, expiresAt);
    if CreateTx(db, userId, lines, seen, outs, expiresAt).Ok? {
      CreateEffect(db, userId, lines, seen, outs, expiresAt);
      CreateEffect(db, userId, lines, seen, outs[k := out], expiresAt);
      BookedEitherWay(db, CreateTx(db, userId, lines, seen, outs, expiresAt).value,
                      CreateTx(db, userId, lines, seen, outs[k := out], expiresAt).value,
                      userId, lines, IdsOf(seen), outs, k, out, expiresAt);
    }
  }

  // ----- Internal rows are counted twice -----

  /** `create` of a single line, without its loops. */
  lemma OneLineCreate(db: Db, userId: string, line: Line, read: Read, out: HoldOutcome, expiresAt: int)
    requires line.qty <= read.row.Effective()
    requires read.id < |db.inventory| && line.qty <= db.inventory[read.id].Effective()
    ensures
      var reserved := db.(inventory := db.inventory[read.id := db.inventory[read.id].Reserve(line.qty)]);
      CreateTx(db, userId, [line], [Some(read)], [out], expiresAt) ==
      HoldItem(InsertReservation(reserved, userId, expiresAt), |db.reservations|, read.id, line, out)
  {
    var lines, seen, ids := [line], [Some(read)], [read.id];
    assert PreflightError(seen, lines, 0).None?;
    assert IdsOf(seen) == ids;
    assert LockError(db.inventory, ids, lines, 0).None?;
    var rows := db.inventory[read.id := db.inventory[read.id].Reserve(line.qty)];
    assert ReserveFrom(rows, ids, lines, 1) == rows;
    assert ReserveFrom(db.inventory, ids, lines, 0) == rows;
    var ready := InsertReservation(db.(inventory := rows), userId, expiresAt);
    var held := HoldItem(ready, |db.reservations|, read.id, line, out);
    if held.Ok? {
      assert HoldFrom(held.value, |db.reservations|, ids, lines, [out], 1) == held;
    }
    assert HoldFrom(ready, |db.reservations|, ids, lines, [out], 0) == held;
  }

  /** One product, held by an internal provider: one row, and these reservations. */
  function InternalShop(available: int, reserved: int, reservations: seq<Reservation>): Db {
    Db(map[1 := "SKU"], [Provider(Internal, true)], [Inventory(1, 0, available, reserved, None)],
       reservations, [], multiset{})
  }

  /** Reserving `qty` units there, when nothing is reserved yet. */
  function ReserveThere(stock: int, qty: int, userId: string, expiresAt: int): Tx<Db> {
    var db := InternalShop(stock, 0, []);
    CreateTx(db, userId, [Line(1, qty)], [Some(Read(0, db.inventory[0]))], [NullRef], expiresAt)
  }

  function ShopItem(qty: int, status: ItemStatus): Item {
    Item(1, 0, 0, qty, status, None, None)
  }

  /** An internal row refuses what it has, unless it has it twice: the last unit cannot be reserved. */
  lemma InternalRefusesLastUnits(stock: int, qty: int, userId: string, expiresAt: int)
    requires 0 < qty <= stock < 2 * qty
    ensures InStock(InternalShop(stock, 0, []), Line(1, qty))
    ensures ReserveThere(stock, qty, userId, expiresAt) == Err(InsufficientStock(1))
  {
    var db := InternalShop(stock, 0, []);
    assert db.inventory[0].productId == 1 && db.inventory[0].Effective() == stock;
    OneLineCreate(db, userId, Line(1, qty), Read(0, db.inventory[0]), NullRef, expiresAt);
  }

  lemma InternalHoldCountsTwice(stock: int, qty: int, userId: string, expiresAt: int)
    requires 0 < qty && 2 * qty <= stock
    ensures ReserveThere(stock, qty, userId, expiresAt) ==
            Ok(InternalShop(stock, 2 * qty, [Reservation(userId, Pending, expiresAt, [ShopItem(qty, Held)])]))
  {
    var db := InternalShop(stock, 0, []);
    OneLineCreate(db, userId, Line(1, qty), Read(0, db.inventory[0]), NullRef, expiresAt);
    var ready := InternalShop(stock, qty, [Reservation(userId, Pending, expiresAt, [])]);
    assert db.inventory[0 := db.inventory[0].Reserve(qty)] == ready.inventory;
    assert InsertReservation(db.(inventory := ready.inventory), userId, expiresAt) == ready;
    var held := InternalShop(stock, 2 * qty, [Reservation(userId, Pending, expiresAt, [ShopItem(qty, Held)])]);
    assert ready.inventory[0 := ready.inventory[0].Reserve(qty)] == held.inventory;
    assert [] + [ShopItem(qty, Held)] == [ShopItem(qty, Held)];
    assert AddItem(ready.(inventory := held.inventory), 0, ShopItem(qty, Held)).reservations == held.reservations;
  }

  /** Reserving from an internal row and cancelling leaves the quantity reserved, for nobody. */
  lemma InternalHoldLeaks(stock: int, qty: int, userId: string, expiresAt: int)
    requires 0 < qty && 2 * qty <= stock
    ensures ReserveThere(stock, qty, userId, expiresAt).Ok?
    ensures CancelTx(ReserveThere(stock, qty, userId, expiresAt).value, 0) ==
            Ok(InternalShop(stock, qty, [Reservation(userId, Cancelled, expiresAt, [ShopItem(qty, Released)])]))
  {
    InternalHoldCountsTwice(stock, qty, userId, expiresAt);
    var held := InternalShop(stock, 2 * qty, [Reservation(userId, Pending, expiresAt, [ShopItem(qty, Held)])]);
    var freed := InternalShop(stock, qty, [Reservation(userId, Pending, expiresAt, [ShopItem(qty, Released)])]);
    assert ReleaseRow(held.inventory, 0, qty) == freed.inventory;
    assert [ShopItem(qty, Held)][0 := ShopItem(qty, Released)] == [ShopItem(qty, Released)];
    assert held.SetItemStatus(0, 0, Released).reservations == freed.reservations;
    assert ReleaseItem(held, 0, 0) == Ok(freed);
    assert ReleaseFrom(freed, 0, 1, 1) == Ok(freed);
    assert ReleaseFrom(held, 0, 1, 0) == Ok(freed);
    assert freed.SetStatus(0, Cancelled).reservations ==
           [Reservation(userId, Cancelled, expiresAt, [ShopItem(qty, Released)])];
  }
}
