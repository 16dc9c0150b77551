/** `CustomerServiceImpl`: every public operation as a pure transition over
    the store. The class is transactional, so an operation that raises leaves
    the store exactly as it found it. */
module CustomerService {
  import opened Results
  import opened AsciiText
  import opened Statuses
  import opened Customers
  import opened CustomerStore

  /** The store after an operation, and what the operation returned or
      raised. */
  datatype Step<+T> = Step(store: Store, reply: Result<T, Error>)

  /** The entity `c` with `fullName`, `email`, `phone` and `address` taken
      from the respective arguments, and everything else kept. */
  predicate Rewritten(c': Customer, c: Customer, fullName: string, email: string,
                      phone: Option<string>, address: Option<string>)
  {
    && c'.customerCode == c.customerCode
    && c'.status == c.status
    && c'.createdAt == c.createdAt
    && c'.fullName == fullName
    && c'.email == email
    && c'.phone == phone
    && c'.address == address
  }

  /** The store `s'` is `s` with only the row `id` possibly replaced. */
  ghost predicate OnlyRowChanged(s': Store, s: Store, id: Id) {
    s'.Keys == s.Keys && forall k :: k in s && k != id ==> s'[k] == s[k]
  }

  // ---------------------------------------------------------------------
  // Listing: the sort order of getAllCustomers
  // ---------------------------------------------------------------------

  datatype Direction = Ascending | Descending

  /** `Sort.by(sortBy)` with a direction. */
  datatype SortOrder = SortOrder(property: string, direction: Direction)

  /** The sort `getAllCustomers` builds: ascending when `sortDir` is "ASC"
      in any letter case, descending for every other text. */
  function SortFor(sortBy: string, sortDir: string): (o: SortOrder)
    ensures o.property == sortBy
    ensures o.direction == Ascending <==> ToUpper(sortDir) == "ASC"
  {
    EqualsIgnoreCaseIsUpperEquality(sortDir, "ASC");
    if EqualsIgnoreCase(sortDir, "ASC") then SortOrder(sortBy, Ascending)
    else SortOrder(sortBy, Descending)
  }

  // ---------------------------------------------------------------------
  // Reads
  // ---------------------------------------------------------------------

  /** `getCustomerById`. */
  function GetCustomerById(s: Store, id: Id): (r: Result<CustomerResponse, Error>)
    ensures r.Ok? <==> id in s
    ensures r.Err? ==> r.error == NotFound(MissingId(id))
    ensures r.Ok? ==> r.value.id == id && r.value == ToResponse(id, s[id])
  {
    match FindById(s, id)
    case None => Err(NotFound(MissingId(id)))
    case Some(c) => Ok(ToResponse(id, c))
  }

  /** The responses for the rows `ids`, in order (`stream().map(...)`). */
  function ResponsesOf(s: Store, ids: seq<Id>): (r: seq<CustomerResponse>)
    requires forall id :: id in ids ==> id in s
    ensures |r| == |ids|
    ensures forall i :: 0 <= i < |ids| ==> r[i] == ToResponse(ids[i], s[ids[i]])
  {
    if ids == [] then [] else [ToResponse(ids[0], s[ids[0]])] + ResponsesOf(s, ids[1..])
  }

  /** A response is among those of `ids` exactly when its row is listed
      and it is that row's conversion. */
  lemma ResponsesOfMembers(s: Store, ids: seq<Id>)
    requires forall id :: id in ids ==> id in s
    ensures forall d: CustomerResponse :: d in ResponsesOf(s, ids) <==>
      d.id in ids && d == ToResponse(d.id, s[d.id])
  {
    var ds := ResponsesOf(s, ids);
    forall d: CustomerResponse | d.id in ids && d == ToResponse(d.id, s[d.id])
      ensures d in ds
    {
      var i :| 0 <= i < |ids| && ids[i] == d.id;
      assert ds[i] == d;
    }
  }

  /** The strict conversion of `getCustomersByStatus`: a text that names no
      variant raises NotFound. */
  function StatusForListing(text: string): (r: Result<CustomerStatus, Error>)
    ensures r.Err? <==> Parse(text) == None
    ensures r.Err? ==> r.error == NotFound(InvalidStatus(text))
    ensures forall v :: r == Ok(v) <==> EqualsIgnoreCase(text, Name(v))
  {
    match Parse(text)
    case None => Err(NotFound(InvalidStatus(text)))
    case Some(v) => Ok(v)
  }

  /** `getCustomersByStatus`, over the store's rows enumerated by `order`:
      the responses of exactly the customers whose status the text names,
      in any letter case. */
  function GetCustomersByStatus(s: Store, order: seq<Id>, text: string)
    : (r: Result<seq<CustomerResponse>, Error>)
    requires forall id :: id in order <==> id in s
    ensures r.Err? <==> Parse(text) == None
    ensures r.Err? ==> r.error == NotFound(InvalidStatus(text))
    ensures r.Ok? ==> forall d :: d in r.value <==>
      d.id in s && d == ToResponse(d.id, s[d.id]) && EqualsIgnoreCase(text, Name(s[d.id].status))
  {
    match StatusForListing(text)
    case Err(e) => Err(e)
    case Ok(v) =>
      var ids := FindByStatus(s, order, v);
      var ds := ResponsesOf(s, ids);
      ResponsesOfMembers(s, ids);
      Ok(ds)
  }

  /** The arguments `advancedSearch` hands to the repository query. */
  datatype SearchFilter = SearchFilter(
    name: Option<string>, email: Option<string>, status: Option<CustomerStatus>)

  /** The lenient conversion of `advancedSearch`: a null, blank or unknown
      text means "no status filter", never an error. */
  function StatusFilterForSearch(text: Option<string>): (r: Option<CustomerStatus>)
    ensures forall v :: r == Some(v) <==> text.Some? && EqualsIgnoreCase(text.value, Name(v))
  {
    if text.None? then None
    else if IsBlank(text.value) then
      BlankParsesToNothing(text.value);
      None
    else Parse(text.value)
  }

  /** `advancedSearch`: name and email are passed through, the status text
      becomes an optional variant. */
  function AdvancedSearch(name: Option<string>, email: Option<string>, statusText: Option<string>)
    : (f: SearchFilter)
    ensures f.name == name && f.email == email
    ensures forall v :: f.status == Some(v) <==> statusText.Some? && EqualsIgnoreCase(statusText.value, Name(v))
  {
    SearchFilter(name, email, StatusFilterForSearch(statusText))
  }

  // ---------------------------------------------------------------------
  // Writes
  // ---------------------------------------------------------------------

  /** `createCustomer`, with `newId` the identifier the store assigns and
      `defaults` the status and creation time it fills in. The code is
      checked before the email. */
  function CreateCustomer(s: Store, req: CustomerRequest, newId: Id, defaults: StoreDefaults)
    : (r: Step<CustomerResponse>)
    requires newId !in s
    ensures ExistsByCustomerCode(s, req.customerCode) ==>
      r == Step(s, Err(Duplicate(CustomerCodeField)))
    ensures !ExistsByCustomerCode(s, req.customerCode) && ExistsByEmail(s, req.email) ==>
      r == Step(s, Err(Duplicate(EmailField)))
    ensures r.reply.Ok? <==> !ExistsByCustomerCode(s, req.customerCode) && !ExistsByEmail(s, req.email)
    ensures r.reply.Ok? ==>
      && r.store.Keys == s.Keys + {newId}
      && (forall k :: k in s ==> r.store[k] == s[k])
      && r.store[newId].customerCode == req.customerCode
      && r.store[newId].fullName == req.fullName
      && r.store[newId].email == req.email
      && r.store[newId].phone == req.phone
      && r.store[newId].address == req.address
      && r.store[newId].status == defaults.status
      && r.store[newId].createdAt == defaults.createdAt
      && r.reply.value == ToResponse(newId, r.store[newId])
  {
    if ExistsByCustomerCode(s, req.customerCode) then
      Step(s, Err(Duplicate(CustomerCodeField)))
    else if ExistsByEmail(s, req.email) then
      Step(s, Err(Duplicate(EmailField)))
    else
      var c := ToEntity(req, defaults);
      Step(Save(s, newId, c), Ok(ToResponse(newId, c)))
  }

  /** `updateCustomer`. The request's customer code is ignored; the email
      is checked for duplicates only when it changes. */
  function UpdateCustomer(s: Store, id: Id, req: CustomerRequest): (r: Step<CustomerResponse>)
    ensures id !in s ==> r == Step(s, Err(NotFound(MissingId(id))))
    ensures id in s ==>
      (r.reply.Err? <==> req.email != s[id].email && ExistsByEmail(s, req.email))
    ensures r.reply.Err? ==> r.store == s
    ensures id in s && r.reply.Err? ==> r.reply.error == Duplicate(EmailField)
    ensures r.reply.Ok? ==>
      && id in s
      && OnlyRowChanged(r.store, s, id)
      && Rewritten(r.store[id], s[id], req.fullName, req.email, req.phone, req.address)
      && r.reply.value == ToResponse(id, r.store[id])
  {
    match FindById(s, id)
    case None => Step(s, Err(NotFound(MissingId(id))))
    case Some(existing) =>
      if existing.email != req.email && ExistsByEmail(s, req.email) then
        Step(s, Err(Duplicate(EmailField)))
      else
        var updated := existing.(fullName := req.fullName, email := req.email,
                                 phone := req.phone, address := req.address);
        Step(Save(s, id, updated), Ok(ToResponse(id, updated)))
  }

  /** `partialUpdateCustomer`. Fields are applied to the loaded entity in
      the order fullName, email, phone, address; a duplicate email raises
      after the new fullName was applied in memory, and the transaction
      discards it together with everything else. */
  function PartialUpdateCustomer(s: Store, id: Id, upd: CustomerUpdate): (r: Step<CustomerResponse>)
    ensures id !in s ==> r == Step(s, Err(NotFound(MissingId(id))))
    ensures id in s ==>
      (r.reply.Err? <==> upd.email.Some? && upd.email.value != s[id].email
                         && ExistsByEmail(s, upd.email.value))
    ensures r.reply.Err? ==> r.store == s
    ensures id in s && r.reply.Err? ==> r.reply.error == Duplicate(EmailField)
    ensures r.reply.Ok? ==>
      && id in s
      && OnlyRowChanged(r.store, s, id)
      && Rewritten(r.store[id], s[id],
                   upd.fullName.GetOr(s[id].fullName), upd.email.GetOr(s[id].email),
                   if upd.phone.Some? then upd.phone else s[id].phone,
                   if upd.address.Some? then upd.address else s[id].address)
      && r.reply.value == ToResponse(id, r.store[id])
  {
    match FindById(s, id)
    case None => Step(s, Err(NotFound(MissingId(id))))
    case Some(existing) =>
      var named := if upd.fullName.Some? then existing.(fullName := upd.fullName.value) else existing;
      if upd.email.Some? && named.email != upd.email.value && ExistsByEmail(s, upd.email.value) then
        Step(s, Err(Duplicate(EmailField)))
      else
        var mailed := if upd.email.Some? then named.(email := upd.email.value) else named;
        var phoned := if upd.phone.Some? then mailed.(phone := upd.phone) else mailed;
        var updated := if upd.address.Some? then phoned.(address := upd.address) else phoned;
        Step(Save(s, id, updated), Ok(ToResponse(id, updated)))
  }

  /** `deleteCustomer`; its reply carries no value. */
  function DeleteCustomer(s: Store, id: Id): (r: Step<()>)
    ensures id !in s ==> r == Step(s, Err(NotFound(MissingId(id))))
    ensures id in s ==> r.reply.Ok?
    ensures r.reply.Ok? ==>
      && r.store.Keys == s.Keys - {id}
      && forall k :: k in r.store ==> r.store[k] == s[k]
  {
    if !ExistsById(s, id) then Step(s, Err(NotFound(MissingId(id))))
    else Step(DeleteById(s, id), Ok(()))
  }
}
