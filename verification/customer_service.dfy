/** `CustomerService`: the existence, uniqueness and partial-update rules the
    REST layer calls, over the JDBC store. Each write returns a `Reply`: how
    the call ended and the store after it. */
module CustomerService {
  import opened Wrappers
  import opened Customers
  import opened DtoToModel
  import Dao = CustomerDao

  type Store = Dao.Store

  /** The service's exceptions. `NotFound` stands for both
      `ResourceNotFoundException` and `CustomerNotFoundException`,
      `DuplicateEmail` for `DuplicateResourceException` and `NoDataChanged` for
      `RequestValidationException`. */
  datatype Error = NotFound | DuplicateEmail | NoDataChanged

  /** How a void service call ended: normally, or by throwing. */
  datatype Status = Done | Failed(error: Error)

  datatype Reply = Reply(status: Status, store: Store)

  /** The value a partial update gives one field: the requested one when the
      request specifies it, the current one otherwise. */
  function Pick<T>(requested: Option<T>, current: Option<T>): Option<T> {
    if requested.Some? then requested else current
  }

  /** The row a partial update asks for, field by field. */
  function Overlay(row: Row, dto: CustomerDto): Row {
    Row(Pick(dto.name, row.name), Pick(dto.email, row.email), Pick(dto.age, row.age))
  }

  /** Every field the request specifies already has that value. */
  predicate ChangesNothing(row: Row, dto: CustomerDto) {
    && (dto.name.None? || dto.name == row.name)
    && (dto.email.None? || dto.email == row.email)
    && (dto.age.None? || dto.age == row.age)
  }

  /** The request moves the customer to an email some stored row already has. */
  ghost predicate EmailClash(store: Store, row: Row, dto: CustomerDto) {
    dto.email.Some? && dto.email != row.email && Dao.HasEmail(store, dto.email)
  }

  /** `getCustomer`: the stored record, or not-found. */
  function GetCustomer(store: Store, id: int): (r: Result<Customer, Error>)
    ensures r.Success? <==> id in store
    ensures r.Failure? ==> r.error == NotFound
    ensures r.Success? ==> r.value.id == Some(id) && r.value.Columns() == store[id]
  {
    match Dao.SelectCustomerById(store, id)
    case Some(c) => Success(c)
    case None => Failure(NotFound)
  }

  /** `addCustomer`: rejects an email already taken, otherwise inserts the DTO's
      fields under the key the store assigns (`newId`). */
  function AddCustomer(store: Store, dto: CustomerDto, newId: int): (r: Reply)
    requires newId !in store
    ensures Dao.HasEmail(store, dto.email) ==> r == Reply(Failed(DuplicateEmail), store)
    ensures !Dao.HasEmail(store, dto.email) ==>
      && r.status == Done
      && r.store.Keys == store.Keys + {newId}
      && r.store[newId] == Row(dto.name, dto.email, dto.age)
      && forall id :: id in store ==> r.store[id] == store[id]
  {
    if Dao.ExistsPersonWithEmail(store, dto.email) then
      Reply(Failed(DuplicateEmail), store)
    else
      Reply(Done, Dao.InsertCustomer(store, ConvertDtoToCustomer(dto), newId))
  }

  /** `deleteCustomer`: not-found for an absent id, otherwise removes that
      customer and nothing else. */
  function DeleteCustomer(store: Store, id: int): (r: Reply)
    ensures id !in store ==> r == Reply(Failed(NotFound), store)
    ensures id in store ==>
      && r.status == Done
      && r.store.Keys == store.Keys - {id}
      && forall k :: k in r.store ==> r.store[k] == store[k]
  {
    if !Dao.ExistsCustomerWithId(store, id) then
      Reply(Failed(NotFound), store)
    else
      Reply(Done, Dao.DeleteCustomerWithId(store, id))
  }

  /** `updateCustomer`: a partial update. A field counts as changed when the
      request specifies it and it differs from the stored value; a changed
      email must not be taken; a request that changes nothing is rejected.
      On success the resolved record goes to the store's update, which writes
      nothing when one of its fields is null. Every error leaves the store as
      it was. */
  function UpdateCustomer(store: Store, id: int, dto: CustomerDto): (r: Reply)
    ensures id !in store ==> r == Reply(Failed(NotFound), store)
    ensures id in store && EmailClash(store, store[id], dto) ==>
      r == Reply(Failed(DuplicateEmail), store)
    ensures id in store && !EmailClash(store, store[id], dto) && ChangesNothing(store[id], dto) ==>
      r == Reply(Failed(NoDataChanged), store)
    ensures id in store && !EmailClash(store, store[id], dto) && !ChangesNothing(store[id], dto) ==>
      && r.status == Done
      && r.store == (if Complete(Overlay(store[id], dto)) then store[id := Overlay(store[id], dto)] else store)
  {
    match GetCustomer(store, id)
    case Failure(e) => Reply(Failed(e), store)
    case Success(current) =>
      var nameChanged := dto.name.Some? && dto.name != current.name;
      var emailChanged := dto.email.Some? && dto.email != current.email;
      if emailChanged && Dao.ExistsPersonWithEmail(store, dto.email) then
        Reply(Failed(DuplicateEmail), store)
      else
        var ageChanged := dto.age.Some? && dto.age != current.age;
        if !(nameChanged || emailChanged || ageChanged) then
          Reply(Failed(NoDataChanged), store)
        else
          var resolved := Customer(
            current.id,
            if nameChanged then dto.name else current.name,
            if emailChanged then dto.email else current.email,
            if ageChanged then dto.age else current.age);
          Reply(Done, Dao.UpdateCustomer(store, resolved))
  }
}
