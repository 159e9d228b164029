/** Properties that relate several service calls: the email-uniqueness
    invariant, what a later read sees after a write, and repeated calls. */
module ServiceProperties {
  import opened Wrappers
  import opened Customers
  import opened DtoToModel
  import Dao = CustomerDao
  import opened CustomerService

  /** Customers `j` and `k`, if both stored and distinct, do not share a
      non-null email. */
  ghost predicate EmailsDiffer(store: Store, j: int, k: int) {
    j in store && k in store && j != k && store[j].email.Some? ==>
      store[j].email != store[k].email
  }

  /** No two customers share a non-null email. */
  ghost predicate UniqueEmails(store: Store) {
    forall j, k :: EmailsDiffer(store, j, k)
  }

  /** `addCustomer` keeps emails unique. */
  lemma AddPreservesUniqueEmails(store: Store, dto: CustomerDto, newId: int)
    requires newId !in store
    requires UniqueEmails(store)
    ensures UniqueEmails(AddCustomer(store, dto, newId).store)
  {
    var after := AddCustomer(store, dto, newId).store;
    forall j, k
      ensures EmailsDiffer(after, j, k)
    {
      assert EmailsDiffer(store, j, k);
      if after != store && j in after && k in after && j != k {
        // the new row's email is one no stored row had
        if j == newId {
          assert after[k] == store[k];
        } else if k == newId {
          assert after[j] == store[j];
        }
      }
    }
  }

  /** `deleteCustomer` keeps emails unique. */
  lemma DeletePreservesUniqueEmails(store: Store, id: int)
    requires UniqueEmails(store)
    ensures UniqueEmails(DeleteCustomer(store, id).store)
  {
    var after := DeleteCustomer(store, id).store;
    forall j, k
      ensures EmailsDiffer(after, j, k)
    {
      assert EmailsDiffer(store, j, k);
    }
  }

  /** `updateCustomer` keeps emails unique: a changed email is written only
      when no stored row has it. */
  lemma UpdatePreservesUniqueEmails(store: Store, id: int, dto: CustomerDto)
    requires UniqueEmails(store)
    ensures UniqueEmails(UpdateCustomer(store, id, dto).store)
  {
    var after := UpdateCustomer(store, id, dto).store;
    forall j, k
      ensures EmailsDiffer(after, j, k)
    {
      assert EmailsDiffer(store, j, k);
      if after != store && j in after && k in after && j != k && (j == id || k == id) {
        var row := Overlay(store[id], dto);
        assert after[id] == row;
        var other := if j == id then k else j;
        assert after[other] == store[other];
        if row.email != store[id].email {
          // a changed email passed the duplicate check
          assert !Dao.HasEmail(store, dto.email);
        } else {
          assert EmailsDiffer(store, id, other) && EmailsDiffer(store, other, id);
        }
      }
    }
  }

  /** A write request to the service. */
  datatype Call =
    | Add(dto: CustomerDto, newId: int)
    | Delete(id: int)
    | Update(id: int, dto: CustomerDto)

  /** The store after a call; an add whose key is already in use is not a
      call the store can make, so it leaves the store as it was. */
  function Apply(store: Store, call: Call): Store {
    match call
    case Add(dto, newId) => if newId in store then store else AddCustomer(store, dto, newId).store
    case Delete(id) => DeleteCustomer(store, id).store
    case Update(id, dto) => UpdateCustomer(store, id, dto).store
  }

  /** The store after a sequence of calls, starting from `store`. */
  function ApplyAll(store: Store, calls: seq<Call>): Store
    decreases |calls|
  {
    if |calls| == 0 then store else Apply(ApplyAll(store, calls[..|calls| - 1]), calls[|calls| - 1])
  }

  /** Any sequence of service writes keeps emails unique; in particular a
      table that starts empty never holds two customers with one email. */
  lemma {:induction false} CallsPreserveUniqueEmails(store: Store, calls: seq<Call>)
    requires UniqueEmails(store)
    ensures UniqueEmails(ApplyAll(store, calls))
    decreases |calls|
  {
    if |calls| > 0 {
      var before := ApplyAll(store, calls[..|calls| - 1]);
      CallsPreserveUniqueEmails(store, calls[..|calls| - 1]);
      match calls[|calls| - 1] {
        case Add(dto, newId) =>
          if newId !in before {
            AddPreservesUniqueEmails(before, dto, newId);
          }
        case Delete(id) => DeletePreservesUniqueEmails(before, id);
        case Update(id, dto) => UpdatePreservesUniqueEmails(before, id, dto);
      }
    }
  }

  /** Deleting a second time reports not-found instead of succeeding again. */
  lemma DeleteTwiceIsNotFound(store: Store, id: int)
    requires DeleteCustomer(store, id).status == Done
    ensures var after := DeleteCustomer(store, id).store;
      DeleteCustomer(after, id) == Reply(Failed(NotFound), after)
  {
  }

  /** A customer added with a free email reads back with the DTO's fields
      under the key the store assigned. */
  lemma GetAfterAdd(store: Store, dto: CustomerDto, newId: int)
    requires newId !in store
    requires AddCustomer(store, dto, newId).status == Done
    ensures GetCustomer(AddCustomer(store, dto, newId).store, newId)
      == Success(ConvertDtoToCustomer(dto).(id := Some(newId)))
  {
  }

  /** After a successful update whose resolved record has no null field, a
      read returns the old record with the requested fields replaced and the
      id kept. */
  lemma GetAfterUpdate(store: Store, id: int, dto: CustomerDto)
    requires id in store
    requires UpdateCustomer(store, id, dto).status == Done
    requires Complete(Overlay(store[id], dto))
    ensures var row := Overlay(store[id], dto);
      GetCustomer(UpdateCustomer(store, id, dto).store, id)
        == Success(Customer(Some(id), row.name, row.email, row.age))
  {
  }

  /** Sending the same update again, after it was written, changes nothing and
      is rejected as such. */
  lemma RepeatedUpdateChangesNothing(store: Store, id: int, dto: CustomerDto)
    requires id in store
    requires UpdateCustomer(store, id, dto).status == Done
    requires Complete(Overlay(store[id], dto))
    ensures var after := UpdateCustomer(store, id, dto).store;
      UpdateCustomer(after, id, dto) == Reply(Failed(NoDataChanged), after)
  {
  }

  /** Asking for the email the customer already has never reports a
      duplicate, even though that email is stored. */
  lemma OwnEmailIsNeverDuplicate(store: Store, id: int, dto: CustomerDto)
    requires id in store
    requires dto.email == store[id].email
    ensures UpdateCustomer(store, id, dto).status != Failed(DuplicateEmail)
  {
  }

  /** A taken email is reported even when the name or age would also have
      changed, and nothing is written. */
  lemma DuplicateEmailWinsOverOtherChanges(store: Store, id: int, other: int, dto: CustomerDto)
    requires id in store && other in store
    requires dto.email.Some? && dto.email != store[id].email
    requires store[other].email == dto.email
    ensures UpdateCustomer(store, id, dto) == Reply(Failed(DuplicateEmail), store)
  {
  }
}
