/**
  The customer data the storefront controllers read and the `CustomerService`
  calls they make. The service's implementation is not part of this model, so
  a controller's effect is recorded as the list of service calls it issues, and
  `Persist` gives those calls an abstract meaning over a map from username to
  customer record.
 */
module CustomerStore {

  import opened Web

  /** The form and profile object (`CustomerDto`). A missing password,
      confirmation, address, city or phone number is Java's `null`. */
  datatype CustomerDto = CustomerDto(
    firstName: string,
    lastName: string,
    username: string,
    password: Option<string>,
    confirmPassword: Option<string>,
    address: Option<string>,
    city: Option<string>,
    phoneNumber: Option<string>)

  /** The parts of a shopping cart the controllers read. */
  datatype Cart = Cart(totalItems: int, totalPrice: real)

  /** A registered customer: profile (with the stored password hash) and the
      cart, which is `null` until the first item is added. */
  datatype CustomerRecord = CustomerRecord(profile: CustomerDto, cart: Option<Cart>)

  type Store = map<string, CustomerRecord>

  /** Every record is filed under its own username. */
  predicate WellKeyed(store: Store) {
    forall u :: u in store ==> store[u].profile.username == u
  }

  /** The `CustomerService` calls a controller can issue. */
  datatype ServiceCall =
    | Save(dto: CustomerDto)
    | Update(dto: CustomerDto)
    | ChangePass(dto: CustomerDto)

  /** A handler's response together with the service calls it issued. */
  datatype Outcome = Outcome(response: Response, calls: seq<ServiceCall>)

  /** `getCustomer` / `findByUsername`: `None` is a `null` result. */
  function GetCustomer(store: Store, username: string): Option<CustomerRecord> {
    if username in store then Some(store[username]) else None
  }

  /** Abstract effect of one service call: `Save` files a new record without a
      cart, `Update` replaces the profile but keeps the stored password,
      `ChangePass` replaces the stored password only. */
  function Persist(store: Store, call: ServiceCall): (s: Store)
    ensures s.Keys == store.Keys + (if call.Save? then {call.dto.username} else {})
    ensures forall u :: u in store && u != call.dto.username ==> s[u] == store[u]
  {
    var u := call.dto.username;
    match call
    case Save(dto) => store[u := CustomerRecord(dto, None)]
    case Update(dto) =>
      if u in store then store[u := store[u].(profile := dto.(password := store[u].profile.password))]
      else store
    case ChangePass(dto) =>
      if u in store then store[u := store[u].(profile := store[u].profile.(password := dto.password))]
      else store
  }

  function PersistAll(store: Store, calls: seq<ServiceCall>): Store
    decreases |calls|
  {
    if |calls| == 0 then store else PersistAll(Persist(store, calls[0]), calls[1..])
  }

  lemma PersistKeepsKeying(store: Store, call: ServiceCall)
    requires WellKeyed(store)
    ensures WellKeyed(Persist(store, call))
  {
  }
}
