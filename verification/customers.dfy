/** The persisted `Customer` entity, the request and response shapes
    exchanged at the service boundary, the service's error kinds, and the
    two conversions between entity and transfer shapes. */
module Customers {
  import opened Results
  import opened Statuses

  /** Store-assigned identifier (a Java `Long`). */
  type Id = int

  /** An instant, as the store records it; its representation plays no role. */
  type Timestamp = int

  /** A stored customer. Its identifier is its key in the store, so the
      record itself does not repeat it. `phone` and `address` may be null. */
  datatype Customer = Customer(
    customerCode: string,
    fullName: string,
    email: string,
    phone: Option<string>,
    address: Option<string>,
    status: CustomerStatus,
    createdAt: Timestamp)

  /** `CustomerRequestDTO`: the body of a create or a full update. */
  datatype CustomerRequest = CustomerRequest(
    customerCode: string,
    fullName: string,
    email: string,
    phone: Option<string>,
    address: Option<string>)

  /** `CustomerUpdateDTO`: a partial update; `None` is a field left null. */
  datatype CustomerUpdate = CustomerUpdate(
    fullName: Option<string>,
    email: Option<string>,
    phone: Option<string>,
    address: Option<string>)

  /** `CustomerResponseDTO`: what every operation returns; the status as text. */
  datatype CustomerResponse = CustomerResponse(
    id: Id,
    customerCode: string,
    fullName: string,
    email: string,
    phone: Option<string>,
    address: Option<string>,
    status: string,
    createdAt: Timestamp)

  /** The values the store fills in when it saves a new entity. */
  datatype StoreDefaults = StoreDefaults(status: CustomerStatus, createdAt: Timestamp)

  /** The two fields whose values must be unique across all customers. */
  datatype UniqueField = CustomerCodeField | EmailField

  /** What a `ResourceNotFoundException` reports as missing. */
  datatype Missing = MissingId(id: Id) | InvalidStatus(text: string)

  /** The two exceptions the service raises. */
  datatype Error =
    | NotFound(missing: Missing)        // ResourceNotFoundException
    | Duplicate(field: UniqueField)     // DuplicateResourceException

  /** `convertToResponseDTO`. */
  function ToResponse(id: Id, c: Customer): (d: CustomerResponse)
    ensures d.id == id && d.customerCode == c.customerCode
    ensures d.fullName == c.fullName && d.email == c.email
    ensures d.phone == c.phone && d.address == c.address
    ensures d.createdAt == c.createdAt
    ensures d.status == Name(c.status)
    ensures Parse(d.status) == Some(c.status)
  {
    NameRoundTrip(c.status, Name(c.status));
    CustomerResponse(id, c.customerCode, c.fullName, c.email, c.phone, c.address,
                     Name(c.status), c.createdAt)
  }

  /** `convertToEntity` followed by the store's save of a new row: the five
      settable fields come from the request, status and creation time from
      the store. */
  function ToEntity(req: CustomerRequest, defaults: StoreDefaults): (c: Customer)
    ensures c.customerCode == req.customerCode && c.fullName == req.fullName
    ensures c.email == req.email && c.phone == req.phone && c.address == req.address
    ensures c.status == defaults.status && c.createdAt == defaults.createdAt
  {
    Customer(req.customerCode, req.fullName, req.email, req.phone, req.address,
             defaults.status, defaults.createdAt)
  }

  /** The response loses nothing: distinct (id, entity) pairs give distinct
      responses. */
  lemma ResponseDeterminesEntity(id: Id, c: Customer, id': Id, c': Customer)
    requires ToResponse(id, c) == ToResponse(id', c')
    ensures id == id' && c == c'
  {
    VariantsAreComplete(c.status);
  }
}
