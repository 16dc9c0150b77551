/** The customer repository, abstracted as a finite map from identifier to
    stored entity, with the lookups and writes the service issues. */
module CustomerStore {
  import opened Results
  import opened Statuses
  import opened Customers

  type Store = map<Id, Customer>

  /** `existsById`. */
  predicate ExistsById(s: Store, id: Id) {
    id in s
  }

  /** `findById`. */
  function FindById(s: Store, id: Id): (r: Option<Customer>)
    ensures r.Some? <==> ExistsById(s, id)
    ensures r.Some? ==> r.value == s[id]
  {
    if id in s then Some(s[id]) else None
  }

  /** `existsByCustomerCode`. */
  predicate ExistsByCustomerCode(s: Store, code: string) {
    exists id | id in s :: s[id].customerCode == code
  }

  /** `existsByEmail`. */
  predicate ExistsByEmail(s: Store, email: string) {
    exists id | id in s :: s[id].email == email
  }

  /** No two customers share a code. */
  ghost predicate UniqueCodes(s: Store) {
    forall a, b :: a in s && b in s && s[a].customerCode == s[b].customerCode ==> a == b
  }

  /** No two customers share an email. */
  ghost predicate UniqueEmails(s: Store) {
    forall a, b :: a in s && b in s && s[a].email == s[b].email ==> a == b
  }

  /** The store's global invariants. */
  ghost predicate Valid(s: Store) {
    UniqueCodes(s) && UniqueEmails(s)
  }

  /** `save`: insert or overwrite the row with identifier `id`. */
  function Save(s: Store, id: Id, c: Customer): (r: Store)
    ensures r.Keys == s.Keys + {id}
    ensures r[id] == c
    ensures forall k :: k in s && k != id ==> r[k] == s[k]
  {
    s[id := c]
  }

  /** `deleteById`. */
  function DeleteById(s: Store, id: Id): (r: Store)
    ensures r.Keys == s.Keys - {id}
    ensures forall k :: k in r ==> r[k] == s[k]
  {
    s - {id}
  }

  /** No identifier is listed twice. */
  predicate NoDuplicates(ids: seq<Id>) {
    forall i, j :: 0 <= i < j < |ids| ==> ids[i] != ids[j]
  }

  /** `findByStatus`, walking the store's rows as `order` enumerates them:
      the identifiers of exactly the rows with status `v`, each listed once
      when the enumeration lists each row once. */
  function FindByStatus(s: Store, order: seq<Id>, v: CustomerStatus): (r: seq<Id>)
    requires forall id :: id in order ==> id in s
    ensures |r| <= |order|
    ensures forall id :: id in r <==> id in order && s[id].status == v
    ensures NoDuplicates(order) ==> NoDuplicates(r)
  {
    if order == [] then []
    else
      var rest := FindByStatus(s, order[1..], v);
      assert forall id :: id in order <==> id == order[0] || id in order[1..];
      if s[order[0]].status == v then [order[0]] + rest else rest
  }
}
