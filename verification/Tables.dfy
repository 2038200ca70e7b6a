/** The tables of the reservation service, as values.

    A row's id is its position in its table: no row is ever deleted, and a new
    reservation or order goes to the end.
  */
module Tables {

  datatype Option<+T> = None | Some(value: T)

  /** The exceptions that can leave a service call. */
  datatype Error =
    | InsufficientStock(productId: int)
    | ReservationNotFound(reservationId: int)
    | ReservationState(reservationId: int)
    | DuplicateOrder(reservationId: int)
    | OrderKeyTaken(reservationId: int)  // the unique key of `orders` refuses the insert
    | ProviderNotFound(providerId: int)
    | ProviderInactive(providerId: int)
    | NoInventoryRow                     // an internal adapter asked for without a row
    | NoProvider                         // attribute access on a missing provider
    | ProviderRaised                     // any other exception of an adapter call

  /** What a piece of a transaction returns: a value, or the exception it raises. */
  datatype Tx<+T> = Ok(value: T) | Err(error: Error) {
    predicate IsFailure() { Err? }

    function PropagateFailure<U>(): Tx<U>
      requires Err?
    {
      Err(error)
    }

    function Extract(): T
      requires Ok?
    {
      value
    }
  }

  datatype ProviderType = Internal | External

  datatype Provider = Provider(kind: ProviderType, isActive: bool)

  datatype Inventory = Inventory(
    productId: int,
    providerId: nat,
    qtyAvailable: int,
    qtyReserved: int,
    lastSyncedAt: Option<int>)
  {
    function Effective(): int { qtyAvailable - qtyReserved }

    function Reserve(qty: int): Inventory { this.(qtyReserved := qtyReserved + qty) }

    function Release(qty: int): Inventory {
      this.(qtyReserved := if qtyReserved - qty > 0 then qtyReserved - qty else 0)
    }

    function Consume(qty: int): Inventory {
      this.(qtyAvailable := qtyAvailable - qty, qtyReserved := qtyReserved - qty)
    }
  }

  datatype ItemStatus = ItemPending | Held | ProviderFailed | Released | ItemConfirmed

  datatype Item = Item(
    productId: int,
    inventoryId: nat,
    providerId: nat,
    qty: int,
    status: ItemStatus,
    holdRef: Option<string>,
    errorMessage: Option<string>)
  {
    /** The item has a remote hold that a later confirm or release must settle. */
    predicate RemotelyHeld() { status == Held && holdRef.Some? }
  }

  datatype Status = Pending | Confirmed | Cancelled | Expired

  datatype Reservation = Reservation(userId: string, status: Status, expiresAt: int, items: seq<Item>)

  datatype Order = Order(reservationId: nat, userId: string)

  datatype CallKind = ConfirmHold | ReleaseHold

  /** A settling call on a provider's adapter: for which item, and with which hold reference. */
  datatype Call = Call(kind: CallKind, reservationId: nat, item: nat, holdRef: string)

  /** The database, and the settling calls on adapters that its committed transactions have made, whether or not
      a request then went out to the provider. Requests that went out are another account: no rollback undoes them. */
  datatype Db = Db(
    skus: map<int, string>,
    providers: seq<Provider>,
    inventory: seq<Inventory>,
    reservations: seq<Reservation>,
    orders: seq<Order>,
    calls: multiset<Call>)
  {
    function ProviderOf(providerId: nat): Option<Provider> {
      if providerId < |providers| then Some(providers[providerId]) else None
    }

    function IsInternal(row: nat): bool
      requires row < |inventory|
    {
      ProviderOf(inventory[row].providerId).Some? &&
      ProviderOf(inventory[row].providerId).value.kind.Internal?
    }

    predicate HasItem(r: nat, k: nat) { r < |reservations| && k < |reservations[r].items| }

    function ItemAt(r: nat, k: nat): Item
      requires HasItem(r, k)
    {
      reservations[r].items[k]
    }

    function SetItemStatus(r: nat, k: nat, status: ItemStatus): Db
      requires HasItem(r, k)
    {
      var items := reservations[r].items;
      this.(reservations := reservations[r := reservations[r].(items := items[k := items[k].(status := status)])])
    }

    function SetStatus(r: nat, status: Status): Db
      requires r < |reservations|
    {
      this.(reservations := reservations[r := reservations[r].(status := status)])
    }
  }
}
