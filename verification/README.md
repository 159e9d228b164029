# Customer service CRUD rules, modelled in Dafny

This project models the core of a small Spring Boot customer REST service.
It covers two layers:

- the service layer (`CustomerService`): its existence checks, the email
  uniqueness check and the partial-update reconciler;
- the JDBC data-access object (`CustomerDaoImplJdbc`): each SQL statement is
  modelled as its effect on an abstract table.

The table is a `map<int, Row>` from primary key to row. A `Row` holds name,
email and age, and a column may be SQL NULL (`None`). The `Customer` entity
adds an optional id, which is `None` until the store assigns one.
`CustomerDto` has three `Option` fields. `None` means "not specified"; an
absent field and a null field are the same thing.

Each service write returns a `Reply`: a status (`Done` or `Failed` with
`NotFound`, `DuplicateEmail` or `NoDataChanged`) together with the store
after the call. Every failure returns the store unchanged.

`UpdateCustomer` diffs the request field by field, as the Java code does. Its
contract is stated against two independent definitions:

- `Overlay`: take each field from the request when the request specifies it,
  otherwise keep the stored value;
- `ChangesNothing`: every specified field already has that value.

The store's `UPDATE` runs only when none of the three fields is null. So, in
this model, an update that succeeds writes nothing when the merged record
still has a null column. The contract states this outright. In the Java the
row mapper reads age with `getInt`, which turns a NULL age into 0, so there the
merged record never has a null age; the row mapper is left out (see
"## Left out").

Modules: `Wrappers` (Option, Result), `Customers` (entity, row, DTO),
`DtoToModel` (the converter), `CustomerDao` (the JDBC store),
`CustomerService` (the service), `ServiceProperties` (lemmas that relate
several calls) and `Scenarios` (the unit tests' cases).

Three behaviours of the code that the model keeps:

- the store's `UPDATE` is skipped when any of the three fields is null
  (CustomerDaoImplJdbc.java:93), so it is not a full overwrite;
- `addCustomer` does not check that fields are present. A null email passes
  the uniqueness check, because SQL `email = NULL` matches no row, and is passed
  to the `INSERT`;
- names may be empty: nothing in the service or the store checks them.

## Model

| member | source | states |
|---|---|---|
| DtoToModel.ConvertDtoToCustomer | backend/src/main/java/com/stefco/webapp/dtotomodel/DtoToModelConverter.java:8-10 | the converted customer has no id, and its name, email and age are the DTO's |
| CustomerDao.SelectCustomerById | backend/src/main/java/com/stefco/webapp/dao/CustomerDaoImplJdbc.java:32-41 | returns a customer exactly when the id is stored; that customer carries the id and the stored row's three columns |
| CustomerDao.SelectAllCustomers | backend/src/main/java/com/stefco/webapp/dao/CustomerDaoImplJdbc.java:23-30 | returns every stored customer exactly once: as many entries as rows, no id twice, each one what select-by-id returns for its id, and every stored id present |
| CustomerDao.InsertCustomer | backend/src/main/java/com/stefco/webapp/dao/CustomerDaoImplJdbc.java:43-51 | adds one row under a key not in use and does not write the entity's own id; select on the new key returns the given name, email and age; every existing row is unchanged |
| CustomerDao.ExistsPersonWithEmail | backend/src/main/java/com/stefco/webapp/dao/CustomerDaoImplJdbc.java:53-63 | true iff the email is non-null and some stored row has it (the count of matching rows is positive) |
| CustomerDao.ExistsCustomerWithId | backend/src/main/java/com/stefco/webapp/dao/CustomerDaoImplJdbc.java:65-74 | true iff the id is stored |
| CustomerDao.DeleteCustomerWithId | backend/src/main/java/com/stefco/webapp/dao/CustomerDaoImplJdbc.java:76-84 | removes exactly that key, after which select on it is empty; other rows are unchanged; deleting an absent id changes nothing |
| CustomerDao.UpdateCustomer | backend/src/main/java/com/stefco/webapp/dao/CustomerDaoImplJdbc.java:86-97 | keeps the key set and every other row; overwrites all three columns of a stored id when none is null; changes nothing when a field is null or the id is null or absent |
| CustomerDao.SelectAfterUpdate | backend/src/test/java/com/stefco/webapp/dao/CustomerDaoImplJdbcTest.java:182-209 | after an update with no null field on a stored id, select returns exactly the update record |
| CustomerDao.UpdateWithCurrentValuesIsIdentity | backend/src/test/java/com/stefco/webapp/dao/CustomerDaoImplJdbcTest.java:306-334 | writing back the record that select returned leaves the store equal to its previous state |
| CustomerDao.ExistsAgreesWithSelect | backend/src/main/java/com/stefco/webapp/dao/CustomerDaoImplJdbc.java:32-74 | the id existence check is true exactly when select by that id finds a customer |
| CustomerService.GetCustomer | backend/src/main/java/com/stefco/webapp/service/CustomerService.java:32-34 | succeeds iff the id is stored, returning the stored record with its id; otherwise fails with not-found |
| CustomerService.AddCustomer | backend/src/main/java/com/stefco/webapp/service/CustomerService.java:36-43 | if some row has the DTO's email, fails with a duplicate error and leaves the store unchanged; otherwise adds exactly one row with the DTO's fields under a new key and keeps every other row |
| CustomerService.DeleteCustomer | backend/src/main/java/com/stefco/webapp/service/CustomerService.java:45-50 | an absent id fails with not-found and removes nothing; a stored id is removed and every other row is kept |
| CustomerService.UpdateCustomer | backend/src/main/java/com/stefco/webapp/service/CustomerService.java:52-81 | absent id: not-found, no write. Changed email that some row has: duplicate, no write, whatever else changed. Every specified field equal to the current one: no-data-changed, no write. Otherwise success, and the row becomes the overlay of the request on the old row (only when it has no null field) |
| ServiceProperties.AddPreservesUniqueEmails | backend/src/main/java/com/stefco/webapp/service/CustomerService.java:36-43 | adding keeps every non-null email held by at most one customer |
| ServiceProperties.DeletePreservesUniqueEmails | backend/src/main/java/com/stefco/webapp/service/CustomerService.java:45-50 | deleting keeps every non-null email held by at most one customer |
| ServiceProperties.UpdatePreservesUniqueEmails | backend/src/main/java/com/stefco/webapp/service/CustomerService.java:62-68 | updating keeps every non-null email held by at most one customer, because a changed email is written only when no row has it |
| ServiceProperties.CallsPreserveUniqueEmails | backend/src/main/java/com/stefco/webapp/service/CustomerService.java:36-81 | any sequence of add, delete and update calls keeps emails unique |
| ServiceProperties.DeleteTwiceIsNotFound | backend/src/main/java/com/stefco/webapp/service/CustomerService.java:45-50 | after a successful delete, deleting the same id again fails with not-found |
| ServiceProperties.GetAfterAdd | backend/src/test/java/com/stefco/webapp/service/CustomerServiceTest.java:66-84 | after a successful add, reading the new key returns the converted DTO with that key as its id |
| ServiceProperties.GetAfterUpdate | backend/src/main/java/com/stefco/webapp/service/CustomerService.java:57-79 | after a successful update whose merged record has no null field, reading returns that record with the same id |
| ServiceProperties.RepeatedUpdateChangesNothing | backend/src/main/java/com/stefco/webapp/service/CustomerService.java:55-77 | sending the same update again after it was written fails with no-data-changed and writes nothing |
| ServiceProperties.OwnEmailIsNeverDuplicate | backend/src/main/java/com/stefco/webapp/service/CustomerService.java:62-65 | an email equal to the customer's current one never triggers the duplicate check |
| ServiceProperties.DuplicateEmailWinsOverOtherChanges | backend/src/test/java/com/stefco/webapp/service/CustomerServiceTest.java:211-229 | a changed email that another row has fails with a duplicate error and no write, even if name or age also changed |
| Scenarios.UpdateOnlyName | backend/src/test/java/com/stefco/webapp/service/CustomerServiceTest.java:146-165 | renaming customer 10 keeps its email and age |
| Scenarios.UpdateAllFields | backend/src/test/java/com/stefco/webapp/service/CustomerServiceTest.java:123-144 | changing all three fields writes all three |
| Scenarios.UpdateWithSameValues | backend/src/test/java/com/stefco/webapp/service/CustomerServiceTest.java:231-244 | a request repeating the current values fails with no-data-changed and writes nothing |
| Scenarios.UpdateToTakenEmail | backend/src/test/java/com/stefco/webapp/service/CustomerServiceTest.java:211-229 | moving to an email another customer has fails with a duplicate error and writes nothing |
| Scenarios.AddWithTakenEmail | backend/src/test/java/com/stefco/webapp/service/CustomerServiceTest.java:85-97 | adding with the test's email `alex@gmail.com`, which a stored row holds, fails with a duplicate error and inserts nothing |
| Scenarios.GetAbsentIdIsNotFound | backend/src/test/java/com/stefco/webapp/service/CustomerServiceTest.java:53-63 | getting an id that is not stored fails with not-found |
| Scenarios.DeleteAbsentIdIsNotFound | backend/src/test/java/com/stefco/webapp/service/CustomerServiceTest.java:110-121 | deleting an id that is not stored fails with not-found and removes nothing |
| Scenarios.UpdateAbsentIdIsNotFound | backend/src/main/java/com/stefco/webapp/service/CustomerService.java:52-53 | updating an id that is not stored fails with not-found before any field is compared, and writes nothing |

## Left out

- `getAllCustomers` in the service (CustomerService.java:28-30) passes straight through to `SelectAllCustomers`, which is modelled; it has no member of its own.
- Store-assigned ids: the key a new row gets is the parameter `newId`, which must not be in use. The table's id sequence is not modelled.
- The table schema is not part of this model. Columns are modelled as nullable and without a uniqueness constraint on email, so the model allows every state the Java code alone allows.
- CustomerDao.ExistsPersonWithEmail: assumes SQL equality on the `email` column is exact (a deterministic, case-sensitive collation that does not ignore trailing spaces), so it agrees with the `String.equals` the service uses to decide whether the email changed. Under a case- or pad-insensitive collation the Java check can find the customer's own row, for example stored `Alex@x` against requested `alex@x`, and throw a duplicate error where the model returns `Done`. The column's collation is not given in any source file.
- `CustomerRowMapper` is not part of this model. Select returns the stored columns as they are; how JDBC reads a NULL age is not modelled.
- Integer widths: ids (`Long`) and ages (`Integer`) are unbounded `int`s. The code only compares them for equality and does no arithmetic on them.
- SQL text, `JdbcTemplate`, console logging and storage-layer exceptions: only each statement's effect on the table is modelled.
- Exception messages, and the split between `ResourceNotFoundException` and `CustomerNotFoundException`: both are `NotFound`.
- The HTTP controller and the startup runner that seeds a random customer: transport and bootstrapping.
- The JPA repository and DAO: a second store the service does not use (CustomerService.java:24 injects the `jdbc` DAO). It does not share the JDBC store's semantics. Its `updateCustomer` is the repository's `save`, with no null guard (CustomerDaoImpJPATest.java:87-95 passes a customer whose fields are all null). `save` on an entity with a null id stores a new row, where the JDBC `UPDATE` matches no row.
- Concurrency: the race between an existence check and the write that follows it is not modelled. Each call runs alone on the store it is given.
