/** The unit tests' scenarios, on a table holding customer 10
    ("Alex", "Alex@gmail.com", 32). */
module Scenarios {
  import opened Wrappers
  import opened Customers
  import opened CustomerService
  import ServiceProperties

  function Alex(): Row {
    Row(Some("Alex"), Some("Alex@gmail.com"), Some(32))
  }

  function AlexStore(): Store {
    map[10 := Alex()]
  }

  /** Renaming keeps email and age and needs no email check. */
  lemma UpdateOnlyName()
    ensures UpdateCustomer(AlexStore(), 10, CustomerDto(Some("Alesandro"), None, None))
      == Reply(Done, map[10 := Row(Some("Alesandro"), Some("Alex@gmail.com"), Some(32))])
  {
  }

  /** All three fields replaced at once. */
  lemma UpdateAllFields()
    ensures UpdateCustomer(AlexStore(), 10, CustomerDto(Some("Alesandro"), Some("alesandro@gmail.com"), Some(55)))
      == Reply(Done, map[10 := Row(Some("Alesandro"), Some("alesandro@gmail.com"), Some(55))])
  {
  }

  /** Restating the current values is rejected and writes nothing. */
  lemma UpdateWithSameValues()
    ensures UpdateCustomer(AlexStore(), 10, CustomerDto(Some("Alex"), Some("Alex@gmail.com"), Some(32)))
      == Reply(Failed(NoDataChanged), AlexStore())
  {
  }

  /** Moving to an email another customer has is rejected and writes nothing. */
  lemma UpdateToTakenEmail()
    ensures var store := AlexStore()[11 := Row(Some("Sandro"), Some("alesandro@gmail.com"), Some(40))];
      UpdateCustomer(store, 10, CustomerDto(None, Some("alesandro@gmail.com"), None))
        == Reply(Failed(DuplicateEmail), store)
  {
    var store := AlexStore()[11 := Row(Some("Sandro"), Some("alesandro@gmail.com"), Some(40))];
    ServiceProperties.DuplicateEmailWinsOverOtherChanges(
      store, 10, 11, CustomerDto(None, Some("alesandro@gmail.com"), None));
  }

  /** Adding with a taken email inserts nothing. The request is the test's
      (`alex@gmail.com`); the row that holds that email is customer 11, since
      customer 10's `Alex@gmail.com` differs from it. */
  lemma AddWithTakenEmail()
    ensures var store := AlexStore()[11 := Row(Some("Alex"), Some("alex@gmail.com"), Some(30))];
      AddCustomer(store, CustomerDto(Some("Alex"), Some("alex@gmail.com"), Some(33)), 12)
        == Reply(Failed(DuplicateEmail), store)
  {
  }

  /** Reading an id that is not stored is not-found. */
  lemma GetAbsentIdIsNotFound()
    ensures GetCustomer(AlexStore(), 7) == Failure(NotFound)
  {
  }

  /** Deleting an id that is not stored is not-found and removes nothing. */
  lemma DeleteAbsentIdIsNotFound()
    ensures DeleteCustomer(AlexStore(), 7) == Reply(Failed(NotFound), AlexStore())
  {
  }

  /** Updating an id that is not stored is not-found, though the request
      would change the name. */
  lemma UpdateAbsentIdIsNotFound()
    ensures UpdateCustomer(AlexStore(), 7, CustomerDto(Some("Alex"), None, None))
      == Reply(Failed(NotFound), AlexStore())
  {
  }
}
