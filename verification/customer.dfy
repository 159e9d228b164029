/** The persisted entity, its table row and the partial-update request. */
module Customers {
  import opened Wrappers

  /** One row of the `customer` table without its primary key. Each column may
      hold SQL NULL, written None. */
  datatype Row = Row(name: Option<string>, email: Option<string>, age: Option<int>)

  /** The `Customer` entity. `id` is None until the store assigns one; the other
      fields are nullable Java references (`String`, `Integer`). */
  datatype Customer = Customer(id: Option<int>, name: Option<string>, email: Option<string>, age: Option<int>)
  {
    /** The three columns the store writes for this customer. */
    function Columns(): Row {
      Row(name, email, age)
    }
  }

  /** `CustomerDto`: a None field means the caller did not specify it (absent
      and null are the same thing). */
  datatype CustomerDto = CustomerDto(name: Option<string>, email: Option<string>, age: Option<int>)

  /** No column of the row is null. */
  predicate Complete(row: Row) {
    row.name.Some? && row.email.Some? && row.age.Some?
  }
}

/** `DtoToModelConverter`. */
module DtoToModel {
  import opened Wrappers
  import opened Customers

  /** Builds a customer that has no id yet and carries the DTO's three fields. */
  function ConvertDtoToCustomer(dto: CustomerDto): (c: Customer)
    ensures c.id == None
    ensures c.name == dto.name && c.email == dto.email && c.age == dto.age
  {
    Customer(None, dto.name, dto.email, dto.age)
  }
}
