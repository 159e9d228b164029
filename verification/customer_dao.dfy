/** The JDBC customer store (`CustomerDaoImplJdbc`), with the table modelled as
    a map from primary key to row. Each SQL statement becomes its effect on
    the map; a write returns the new map. */
module CustomerDao {
  import opened Wrappers
  import opened Customers

  /** The `customer` table: primary key to row. */
  type Store = map<int, Row>

  /** The entity the row mapper builds from the row stored under `id`. */
  function AsCustomer(id: int, row: Row): Customer {
    Customer(Some(id), row.name, row.email, row.age)
  }

  /** Some stored row has exactly this (non-null) email. */
  ghost predicate HasEmail(store: Store, email: Option<string>) {
    email.Some? && exists id :: id in store && store[id].email == email
  }

  /** A non-empty set has a member to pick. Set trivia: it only supplies the
      witness that `:|` needs in `SelectAllCustomers` and the two exists checks. */
  lemma NonEmptyHasMember(s: set<int>)
    requires s != {}
    ensures exists x :: x in s
  {
    if forall x :: x !in s {
      assert false;
    }
  }

  /** `SELECT ... WHERE id = ?`: the customer stored under `id`, if any. */
  function SelectCustomerById(store: Store, id: int): (r: Option<Customer>)
    ensures r.Some? <==> id in store
    ensures r.Some? ==> r.value.id == Some(id) && r.value.Columns() == store[id]
  {
    if id in store then Some(AsCustomer(id, store[id])) else None
  }

  /** `SELECT ... FROM customer`: every stored customer exactly once, in no
      particular order. */
  method SelectAllCustomers(store: Store) returns (all: seq<Customer>)
    ensures |all| == |store|
    ensures forall i :: 0 <= i < |all| ==>
      all[i].id.Some? && SelectCustomerById(store, all[i].id.value) == Some(all[i])
    ensures forall id :: id in store ==> AsCustomer(id, store[id]) in all
    ensures forall i, j :: 0 <= i < j < |all| ==> all[i].id != all[j].id
  {
    all := [];
    var pending := store.Keys;
    while pending != {}
      invariant pending <= store.Keys
      invariant |all| + |pending| == |store|
      invariant forall i :: 0 <= i < |all| ==>
        all[i].id.Some? && all[i].id.value in store && all[i].id.value !in pending
        && all[i] == AsCustomer(all[i].id.value, store[all[i].id.value])
      invariant forall id :: id in store && id !in pending ==> AsCustomer(id, store[id]) in all
      invariant forall i, j :: 0 <= i < j < |all| ==> all[i].id != all[j].id
      decreases pending
    {
      NonEmptyHasMember(pending);
      var key :| key in pending;
      all := all + [AsCustomer(key, store[key])];
      pending := pending - {key};
    }
  }

  /** `INSERT INTO customer(name, email, age)`: the store picks the key, here
      `newId`; the customer's own id is not written. */
  function InsertCustomer(store: Store, customer: Customer, newId: int): (r: Store)
    requires newId !in store
    ensures r.Keys == store.Keys + {newId}
    ensures |r| == |store| + 1
    ensures SelectCustomerById(r, newId) == Some(Customer(Some(newId), customer.name, customer.email, customer.age))
    ensures forall id :: id in store ==> r[id] == store[id]
  {
    store[newId := customer.Columns()]
  }

  /** `SELECT count(id) ... WHERE email = ?` compared with zero. A null email
      matches no row, because `email = NULL` is never true in SQL. SQL `=` on
      the column is taken to be exact string equality. */
  function ExistsPersonWithEmail(store: Store, email: Option<string>): (r: bool)
    ensures r <==> HasEmail(store, email)
  {
    var matching := set id | id in store && email.Some? && store[id].email == email;
    if |matching| > 0 then
      assert HasEmail(store, email) by {
        NonEmptyHasMember(matching);
        var key :| key in matching;
        assert store[key].email == email;
      }
      true
    else
      assert forall id :: id in store && email.Some? && store[id].email == email ==> id in matching;
      false
  }

  /** `SELECT count(id) ... WHERE id = ?` compared with zero. */
  function ExistsCustomerWithId(store: Store, id: int): (r: bool)
    ensures r <==> id in store
  {
    var matching := set k | k in store && k == id;
    if |matching| > 0 then
      assert id in store by {
        NonEmptyHasMember(matching);
        var k :| k in matching;
      }
      true
    else
      assert id in store ==> id in matching;
      false
  }

  /** `DELETE ... WHERE id = ?`: removes that row; an absent id deletes nothing. */
  function DeleteCustomerWithId(store: Store, id: int): (r: Store)
    ensures r.Keys == store.Keys - {id}
    ensures SelectCustomerById(r, id) == None
    ensures forall k :: k in r ==> r[k] == store[k]
    ensures id !in store ==> r == store
  {
    store - {id}
  }

  /** `UPDATE customer SET name, email, age WHERE id = ?`, issued only when none
      of the three fields is null. A null or absent id matches no row, so
      nothing is inserted. */
  function UpdateCustomer(store: Store, update: Customer): (r: Store)
    ensures r.Keys == store.Keys
    ensures forall k :: k in store && update.id != Some(k) ==> r[k] == store[k]
    ensures !Complete(update.Columns()) ==> r == store
    ensures update.id.Some? && update.id.value in store && Complete(update.Columns()) ==>
      r[update.id.value] == update.Columns()
  {
    if update.name != None && update.email != None && update.age != None then
      match update.id
      case Some(id) => if id in store then store[id := update.Columns()] else store
      case None => store
    else
      store
  }

  /** Selecting the updated id returns exactly the update record. */
  lemma SelectAfterUpdate(store: Store, update: Customer, id: int)
    requires update.id == Some(id) && id in store
    requires Complete(update.Columns())
    ensures SelectCustomerById(UpdateCustomer(store, update), id) == Some(update)
  {
  }

  /** Writing back the values a select returned leaves the store as it was. */
  lemma UpdateWithCurrentValuesIsIdentity(store: Store, id: int)
    requires id in store
    ensures UpdateCustomer(store, SelectCustomerById(store, id).value) == store
  {
  }

  /** The id existence check agrees with select. */
  lemma ExistsAgreesWithSelect(store: Store, id: int)
    ensures ExistsCustomerWithId(store, id) <==> SelectCustomerById(store, id).Some?
  {
  }
}
