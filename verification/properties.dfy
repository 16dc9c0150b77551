/** Properties relating the service operations to one another and to the
    store's global invariants. */
module ServiceProperties {
  import opened Results
  import opened AsciiText
  import opened Statuses
  import opened Customers
  import opened CustomerStore
  import opened CustomerService

  // ---------------------------------------------------------------------
  // Uniqueness of code and email is kept by every write
  // ---------------------------------------------------------------------

  lemma CreatePreservesValid(s: Store, req: CustomerRequest, newId: Id, defaults: StoreDefaults)
    requires Valid(s) && newId !in s
    ensures Valid(CreateCustomer(s, req, newId, defaults).store)
  {
  }

  /** The email written by an update or partial update is either the row's
      own or one no row holds, and its code is the row's own. */
  lemma RewritePreservesValid(s: Store, id: Id, t: Store)
    requires Valid(s) && id in s
    requires OnlyRowChanged(t, s, id)
    requires t[id].customerCode == s[id].customerCode
    requires t[id].email == s[id].email || !ExistsByEmail(s, t[id].email)
    ensures Valid(t)
  {
    forall a, b | a in t && b in t && t[a].customerCode == t[b].customerCode
      ensures a == b
    {
      assert s[a].customerCode == t[a].customerCode;
      assert s[b].customerCode == t[b].customerCode;
    }
    forall a, b | a in t && b in t && t[a].email == t[b].email
      ensures a == b
    {
    }
  }

  lemma UpdatePreservesValid(s: Store, id: Id, req: CustomerRequest)
    requires Valid(s)
    ensures Valid(UpdateCustomer(s, id, req).store)
  {
    var r := UpdateCustomer(s, id, req);
    if r.reply.Ok? {
      RewritePreservesValid(s, id, r.store);
    }
  }

  lemma PartialUpdatePreservesValid(s: Store, id: Id, upd: CustomerUpdate)
    requires Valid(s)
    ensures Valid(PartialUpdateCustomer(s, id, upd).store)
  {
    var r := PartialUpdateCustomer(s, id, upd);
    if r.reply.Ok? {
      RewritePreservesValid(s, id, r.store);
    }
  }

  lemma DeletePreservesValid(s: Store, id: Id)
    requires Valid(s)
    ensures Valid(DeleteCustomer(s, id).store)
  {
  }

  // ---------------------------------------------------------------------
  // Round trips between writes and reads
  // ---------------------------------------------------------------------

  /** What a successful create returns is what a later read returns, and
      it carries the request's fields and the store's defaults. */
  lemma CreateThenGet(s: Store, req: CustomerRequest, newId: Id, defaults: StoreDefaults)
    requires newId !in s
    requires CreateCustomer(s, req, newId, defaults).reply.Ok?
    ensures var r := CreateCustomer(s, req, newId, defaults);
      && GetCustomerById(r.store, newId) == r.reply
      && r.reply.value.customerCode == req.customerCode
      && r.reply.value.fullName == req.fullName
      && r.reply.value.email == req.email
      && r.reply.value.phone == req.phone
      && r.reply.value.address == req.address
      && Parse(r.reply.value.status) == Some(defaults.status)
      && r.reply.value.createdAt == defaults.createdAt
  {
  }

  /** After a delete, reading the same identifier fails with NotFound. */
  lemma DeleteThenGet(s: Store, id: Id)
    requires DeleteCustomer(s, id).reply.Ok?
    ensures GetCustomerById(DeleteCustomer(s, id).store, id) == Err(NotFound(MissingId(id)))
  {
  }

  /** An update's reply is what a later read returns. */
  lemma UpdateThenGet(s: Store, id: Id, req: CustomerRequest)
    requires UpdateCustomer(s, id, req).reply.Ok?
    ensures GetCustomerById(UpdateCustomer(s, id, req).store, id) == UpdateCustomer(s, id, req).reply
  {
  }

  // ---------------------------------------------------------------------
  // Full update
  // ---------------------------------------------------------------------

  /** Resubmitting a customer's own email never raises Duplicate. */
  lemma UpdateWithOwnEmailSucceeds(s: Store, id: Id, req: CustomerRequest)
    requires id in s && req.email == s[id].email
    ensures UpdateCustomer(s, id, req).reply.Ok?
  {
  }

  /** An email held by another customer is refused, and the target keeps
      its stored email. */
  lemma UpdateToOthersEmailFails(s: Store, id: Id, other: Id, req: CustomerRequest)
    requires id in s && other in s && id != other
    requires Valid(s) && req.email == s[other].email
    ensures UpdateCustomer(s, id, req).reply == Err(Duplicate(EmailField))
    ensures UpdateCustomer(s, id, req).store[id].email == s[id].email
  {
    assert s[id].email != s[other].email;
  }

  /** The customer code in an update request plays no part. */
  lemma UpdateIgnoresRequestCode(s: Store, id: Id, req: CustomerRequest, code: string)
    ensures UpdateCustomer(s, id, req) == UpdateCustomer(s, id, req.(customerCode := code))
  {
  }

  // ---------------------------------------------------------------------
  // Partial update against full update
  // ---------------------------------------------------------------------

  /** A partial update with every field present is a full update. */
  lemma PartialUpdateWithAllFieldsIsUpdate(s: Store, id: Id, req: CustomerRequest)
    requires req.phone.Some? && req.address.Some?
    ensures PartialUpdateCustomer(s, id,
              CustomerUpdate(Some(req.fullName), Some(req.email), req.phone, req.address))
            == UpdateCustomer(s, id, req)
  {
  }

  /** A partial update with every field absent writes nothing new and
      answers like a read. */
  lemma PartialUpdateWithNoFieldsIsGet(s: Store, id: Id)
    ensures PartialUpdateCustomer(s, id, CustomerUpdate(None, None, None, None))
            == Step(s, GetCustomerById(s, id))
  {
    if id in s {
      assert s[id := s[id]] == s;
    }
  }

  /** A partial update whose email is refused does not persist the name it
      had already applied to the loaded entity. */
  lemma PartialUpdateLeaksNoWrite(s: Store, id: Id, other: Id, upd: CustomerUpdate)
    requires Valid(s) && id in s && other in s && id != other
    requires upd.fullName.Some? && upd.email == Some(s[other].email)
    ensures PartialUpdateCustomer(s, id, upd).reply == Err(Duplicate(EmailField))
    ensures PartialUpdateCustomer(s, id, upd).store[id].fullName == s[id].fullName
  {
    assert s[id].email != s[other].email;
  }

  // ---------------------------------------------------------------------
  // Status conversion: strict listing against lenient search
  // ---------------------------------------------------------------------

  /** Where the listing accepts a status text the search filters on the
      same variant; where the listing raises NotFound the search drops the
      filter. */
  lemma ListingAndSearchAgree(text: string)
    ensures StatusForListing(text).Ok? ==>
      StatusFilterForSearch(Some(text)) == Some(StatusForListing(text).value)
    ensures StatusForListing(text).Err? ==> StatusFilterForSearch(Some(text)) == None
  {
    if StatusFilterForSearch(Some(text)).Some? {
      var v := StatusFilterForSearch(Some(text)).value;
      assert StatusForListing(text) == Ok(v);
    }
  }

  /** The status text of any response selects that customer's variant. */
  lemma ResponseStatusIsListable(id: Id, c: Customer)
    ensures StatusForListing(ToResponse(id, c).status) == Ok(c.status)
  {
  }

  // ---------------------------------------------------------------------
  // Histories of writes
  // ---------------------------------------------------------------------

  /** A write request against the service. */
  datatype Command =
    | Create(req: CustomerRequest, defaults: StoreDefaults)
    | Update(id: Id, req: CustomerRequest)
    | PartialUpdate(id: Id, upd: CustomerUpdate)
    | Delete(id: Id)

  /** The store's rows and its identifier sequence, whose next value lies
      above every identifier handed out so far. */
  datatype Db = Db(rows: Store, nextId: Id)

  ghost predicate IdsBelow(db: Db) {
    forall k :: k in db.rows ==> k < db.nextId
  }

  /** One command; a create draws the next identifier from the sequence
      whether or not it succeeds. */
  function Apply(db: Db, cmd: Command): (db': Db)
    requires IdsBelow(db)
    ensures IdsBelow(db') && db.nextId <= db'.nextId
  {
    match cmd
    case Create(req, defaults) =>
      Db(CreateCustomer(db.rows, req, db.nextId, defaults).store, db.nextId + 1)
    case Update(id, req) => Db(UpdateCustomer(db.rows, id, req).store, db.nextId)
    case PartialUpdate(id, upd) => Db(PartialUpdateCustomer(db.rows, id, upd).store, db.nextId)
    case Delete(id) => Db(DeleteCustomer(db.rows, id).store, db.nextId)
  }

  function Run(db: Db, cmds: seq<Command>): (db': Db)
    requires IdsBelow(db)
    ensures IdsBelow(db') && db.nextId <= db'.nextId
    decreases |cmds|
  {
    if cmds == [] then db else Run(Apply(db, cmds[0]), cmds[1..])
  }

  lemma ApplyPreservesValid(db: Db, cmd: Command)
    requires IdsBelow(db) && Valid(db.rows)
    ensures Valid(Apply(db, cmd).rows)
  {
    match cmd
    case Create(req, defaults) => CreatePreservesValid(db.rows, req, db.nextId, defaults);
    case Update(id, req) => UpdatePreservesValid(db.rows, id, req);
    case PartialUpdate(id, upd) => PartialUpdatePreservesValid(db.rows, id, upd);
    case Delete(id) => DeletePreservesValid(db.rows, id);
  }

  /** Code and email uniqueness hold after any history of writes. */
  lemma {:induction false} RunPreservesValid(db: Db, cmds: seq<Command>)
    requires IdsBelow(db) && Valid(db.rows)
    ensures Valid(Run(db, cmds).rows)
    decreases |cmds|
  {
    if cmds != [] {
      ApplyPreservesValid(db, cmds[0]);
      RunPreservesValid(Apply(db, cmds[0]), cmds[1..]);
    }
  }

  /** One command keeps every surviving row's code, and brings back no
      identifier that was handed out before and is gone. */
  lemma ApplyKeepsCodes(db: Db, cmd: Command, id: Id)
    requires IdsBelow(db) && id < db.nextId
    ensures id in Apply(db, cmd).rows ==> id in db.rows
    ensures id in db.rows && id in Apply(db, cmd).rows ==>
      Apply(db, cmd).rows[id].customerCode == db.rows[id].customerCode
  {
  }

  /** A deleted identifier never comes back. */
  lemma {:induction false} RunNeverRevives(db: Db, cmds: seq<Command>, id: Id)
    requires IdsBelow(db) && id < db.nextId && id !in db.rows
    ensures id !in Run(db, cmds).rows
    decreases |cmds|
  {
    if cmds != [] {
      ApplyKeepsCodes(db, cmds[0], id);
      RunNeverRevives(Apply(db, cmds[0]), cmds[1..], id);
    }
  }

  /** A customer present before and after any history of writes has the
      code it started with. */
  lemma {:induction false} RunKeepsCodes(db: Db, cmds: seq<Command>, id: Id)
    requires IdsBelow(db) && id in db.rows && id in Run(db, cmds).rows
    ensures Run(db, cmds).rows[id].customerCode == db.rows[id].customerCode
    decreases |cmds|
  {
    if cmds != [] {
      var db1 := Apply(db, cmds[0]);
      ApplyKeepsCodes(db, cmds[0], id);
      if id in db1.rows {
        RunKeepsCodes(db1, cmds[1..], id);
      } else {
        RunNeverRevives(db1, cmds[1..], id);
      }
    }
  }
}
