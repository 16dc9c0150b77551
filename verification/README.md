# Customer service model

A Dafny model of `CustomerServiceImpl`, the service layer of a customer CRUD
API. The customer repository is modelled as a finite map from identifier to
stored entity (`CustomerStore.Store`). Each service operation is a pure
transition from a store to a `Step`: the store afterwards plus the reply,
which is either a response DTO or one of the two domain errors
(`NotFound`, `Duplicate`). The class is `@Transactional`, so every failing
operation returns the store it was given. That covers the partial update,
which raises on a duplicate email after it has already applied the new full
name to the loaded entity.

Modules, one per concern of the source:

- `Results`: `Option` for Java's nullable references, `Result` for a value or a thrown exception.
- `AsciiText`: `toUpperCase`, `equalsIgnoreCase` and `trim().isEmpty()` over ASCII case folding.
- `Statuses`: the `CustomerStatus` enumeration, `valueOf`, and the shared case-insensitive parse.
- `Customers`: the entity, the request, update and response DTOs, the errors, and `convertToResponseDTO` / `convertToEntity`.
- `CustomerStore`: the repository methods the service calls (`findById`, `existsBy…`, `save`, `deleteById`, `findByStatus`) and the store invariant `Valid` (code and email uniqueness).
- `CustomerService`: the service operations.
- `ServiceProperties`: lemmas relating the operations to each other and to `Valid`, including a history of arbitrary writes (`Run`).

Modelling choices:

- An entity's identifier is its key in the map, so `Customer` has no `id` field. "The id never changes" is then the statement that an update writes the row back under the same key and leaves every other row alone.
- The store assigns identifiers. `CreateCustomer` takes the assigned `newId` as a parameter and requires that no row uses it yet. It also takes the status and creation time the store fills in on save (`StoreDefaults`).
- In the history lemmas, identifiers come from a sequence (`Db.nextId`) that lies above every identifier handed out so far. Every create draws from it, whether or not the create succeeds.
- The `CustomerStatus` enum file is not part of this model. The variants are taken to be `ACTIVE` and `INACTIVE`. Every lemma about parsing is stated over all variants, so adding one only changes `Statuses.Name` and `Statuses.Variants`.
- Repository lists come back in an unspecified order. `GetCustomersByStatus` takes the store's enumeration order `order` as a parameter, and its contract is stated as set membership.
- `advancedSearch` checks `trim().isEmpty()` before parsing the status. That check never changes the outcome: a blank text matches no variant name (`Statuses.BlankParsesToNothing`). The model keeps the check anyway, as the source has it.

## Model

| member | source | states |
|---|---|---|
| AsciiText.ToUpper | customer-api/src/main/java/com/example/customer_api/service/CustomerServiceImpl.java:118 | upper-casing keeps the length and maps each character through the ASCII letter mapping, position by position |
| AsciiText.EqualsIgnoreCase | customer-api/src/main/java/com/example/customer_api/service/CustomerServiceImpl.java:36 | true exactly when both texts have the same length and agree position by position once upper-cased |
| AsciiText.Trim | customer-api/src/main/java/com/example/customer_api/service/CustomerServiceImpl.java:162 | the trimmed text is the slice of the input left after dropping the leading and trailing characters up to U+0020: empty exactly when every character is at most U+0020, otherwise starting and ending with a character above U+0020 |
| AsciiText.EqualsIgnoreCaseIsUpperEquality | customer-api/src/main/java/com/example/customer_api/service/CustomerServiceImpl.java:36 | comparing ignoring case is the same as comparing the upper-cased texts |
| AsciiText.ToUpperIdempotent | customer-api/src/main/java/com/example/customer_api/service/CustomerServiceImpl.java:118 | upper-casing an upper-cased text changes nothing |
| AsciiText.BlankMatchesOnlyBlank | customer-api/src/main/java/com/example/customer_api/service/CustomerServiceImpl.java:162 | a blank text does not equal, ignoring case, any text that holds a character above U+0020 |
| Statuses.VariantsAreComplete | customer-api/src/main/java/com/example/customer_api/service/CustomerServiceImpl.java:118 | every variant is listed among the enumeration's values, and distinct variants have distinct names |
| Statuses.NameIsUpperCase | customer-api/src/main/java/com/example/customer_api/service/CustomerServiceImpl.java:118 | each variant name is unchanged by upper-casing and is not blank |
| Statuses.Lookup | customer-api/src/main/java/com/example/customer_api/service/CustomerServiceImpl.java:118 | finds a listed variant with exactly the given name, or reports that none of the listed variants has it |
| Statuses.ValueOf | customer-api/src/main/java/com/example/customer_api/service/CustomerServiceImpl.java:118 | `valueOf` yields variant v exactly when v's name equals the text, case-sensitively |
| Statuses.Parse | customer-api/src/main/java/com/example/customer_api/service/CustomerServiceImpl.java:118 | upper-casing and then `valueOf` yields v exactly when the text equals v's name ignoring case |
| Statuses.NameRoundTrip | customer-api/src/main/java/com/example/customer_api/service/CustomerServiceImpl.java:142 | a variant's rendered name, written in any letter case, parses back to that variant |
| Statuses.BlankParsesToNothing | customer-api/src/main/java/com/example/customer_api/service/CustomerServiceImpl.java:162-164 | a blank text parses to no variant, so the blank guard before parsing never changes the outcome |
| Customers.ToResponse | customer-api/src/main/java/com/example/customer_api/service/CustomerServiceImpl.java:134-145 | id, code, name, email, phone, address and creation time are copied; the status text is exactly the variant's constant name, and it parses back to the entity's status |
| Customers.ToEntity | customer-api/src/main/java/com/example/customer_api/service/CustomerServiceImpl.java:147-155 | the code, name, email, phone and address come from the request; status and creation time come only from the store |
| Customers.ResponseDeterminesEntity | customer-api/src/main/java/com/example/customer_api/service/CustomerServiceImpl.java:134-145 | the response loses nothing: equal responses come from equal identifiers and equal entities |
| CustomerStore.FindById | customer-api/src/main/java/com/example/customer_api/service/CustomerServiceImpl.java:49 | finds a row exactly when the identifier exists, and returns that row |
| CustomerStore.Save | customer-api/src/main/java/com/example/customer_api/service/CustomerServiceImpl.java:69 | save writes the given row under its identifier and leaves every other row unchanged |
| CustomerStore.DeleteById | customer-api/src/main/java/com/example/customer_api/service/CustomerServiceImpl.java:103 | delete removes exactly the given identifier and changes no remaining row |
| CustomerStore.FindByStatus | customer-api/src/main/java/com/example/customer_api/service/CustomerServiceImpl.java:121 | the result holds exactly the enumerated rows whose status is the requested variant, each once when the enumeration lists each row once |
| CustomerService.SortFor | customer-api/src/main/java/com/example/customer_api/service/CustomerServiceImpl.java:36-38 | sorts by the given field; the direction is ascending exactly when the direction text upper-cases to "ASC", and descending for every other text |
| CustomerService.GetCustomerById | customer-api/src/main/java/com/example/customer_api/service/CustomerServiceImpl.java:48-52 | succeeds exactly when the id exists and returns that row's response; otherwise NotFound naming the id |
| CustomerService.ResponsesOf | customer-api/src/main/java/com/example/customer_api/service/CustomerServiceImpl.java:121-124 | one response per listed row, in order, each the conversion of that row |
| CustomerService.ResponsesOfMembers | customer-api/src/main/java/com/example/customer_api/service/CustomerServiceImpl.java:121-124 | a response is among the listed rows' responses exactly when its id is listed and it is that row's conversion |
| CustomerService.StatusForListing | customer-api/src/main/java/com/example/customer_api/service/CustomerServiceImpl.java:116-129 | strict conversion: succeeds with v exactly when the text equals v's name ignoring case; otherwise NotFound naming the invalid text |
| CustomerService.GetCustomersByStatus | customer-api/src/main/java/com/example/customer_api/service/CustomerServiceImpl.java:115-130 | NotFound exactly when the text names no variant; otherwise the result holds exactly the responses of the customers whose status the text names, in any letter case |
| CustomerService.StatusFilterForSearch | customer-api/src/main/java/com/example/customer_api/service/CustomerServiceImpl.java:159-169 | lenient conversion: filters on v exactly when a text is present and equals v's name ignoring case; a null, blank or unknown text gives no filter and never an error |
| CustomerService.AdvancedSearch | customer-api/src/main/java/com/example/customer_api/service/CustomerServiceImpl.java:158-172 | name and email pass through to the query unchanged; the status filter is variant v exactly when a status text is present and equals v's name ignoring case; a missing or unknown text gives no filter |
| CustomerService.CreateCustomer | customer-api/src/main/java/com/example/customer_api/service/CustomerServiceImpl.java:55-73 | Duplicate on an existing code, checked before the email; then Duplicate on an existing email; both leave the store unchanged. Otherwise exactly one new row is added, carrying the request's code, name, email, phone and address and the store's status and creation time; older rows are unchanged, and the reply is the new row's response |
| CustomerService.UpdateCustomer | customer-api/src/main/java/com/example/customer_api/service/CustomerServiceImpl.java:76-96 | NotFound for an absent id. Duplicate exactly when the new email differs from the current one and some row holds it. Failures leave the store unchanged. On success only that row changes: name, email, phone and address are overwritten, while code, status and creation time are kept |
| CustomerService.PartialUpdateCustomer | customer-api/src/main/java/com/example/customer_api/service/CustomerServiceImpl.java:181-214 | NotFound for an absent id. Duplicate exactly when a present email differs from the current one and some row holds it, and then the store is unchanged. On success present fields are overwritten and absent ones kept; code, status and creation time are kept and no other row changes |
| CustomerService.DeleteCustomer | customer-api/src/main/java/com/example/customer_api/service/CustomerServiceImpl.java:99-104 | NotFound with the store unchanged for an absent id; otherwise exactly that id is removed and no remaining row changes |
| ServiceProperties.CreatePreservesValid | customer-api/src/main/java/com/example/customer_api/service/CustomerServiceImpl.java:57-69 | create keeps codes unique and emails unique |
| ServiceProperties.RewritePreservesValid | customer-api/src/main/java/com/example/customer_api/service/CustomerServiceImpl.java:81-94 | rewriting one row keeps uniqueness when its code is unchanged and its email is its own or held by no row |
| ServiceProperties.UpdatePreservesValid | customer-api/src/main/java/com/example/customer_api/service/CustomerServiceImpl.java:76-96 | full update keeps codes unique and emails unique |
| ServiceProperties.PartialUpdatePreservesValid | customer-api/src/main/java/com/example/customer_api/service/CustomerServiceImpl.java:181-214 | partial update keeps codes unique and emails unique |
| ServiceProperties.DeletePreservesValid | customer-api/src/main/java/com/example/customer_api/service/CustomerServiceImpl.java:99-104 | delete keeps codes unique and emails unique |
| ServiceProperties.CreateThenGet | customer-api/src/main/java/com/example/customer_api/service/CustomerServiceImpl.java:66-72 | after a successful create, reading the new id returns the create's reply, which carries the request's fields and the store's defaults |
| ServiceProperties.DeleteThenGet | customer-api/src/main/java/com/example/customer_api/service/CustomerServiceImpl.java:99-104 | after a successful delete, reading the same id fails with NotFound |
| ServiceProperties.UpdateThenGet | customer-api/src/main/java/com/example/customer_api/service/CustomerServiceImpl.java:94-95 | after a successful update, reading the id returns the update's reply |
| ServiceProperties.UpdateWithOwnEmailSucceeds | customer-api/src/main/java/com/example/customer_api/service/CustomerServiceImpl.java:81-84 | resubmitting a customer's own email never raises Duplicate |
| ServiceProperties.UpdateToOthersEmailFails | customer-api/src/main/java/com/example/customer_api/service/CustomerServiceImpl.java:81-84 | taking another customer's email raises Duplicate, and the target keeps its stored email |
| ServiceProperties.UpdateIgnoresRequestCode | customer-api/src/main/java/com/example/customer_api/service/CustomerServiceImpl.java:86-92 | the customer code in an update request has no effect on the outcome |
| ServiceProperties.PartialUpdateWithAllFieldsIsUpdate | customer-api/src/main/java/com/example/customer_api/service/CustomerServiceImpl.java:181-214 | a partial update with all four fields present behaves exactly like the full update |
| ServiceProperties.PartialUpdateWithNoFieldsIsGet | customer-api/src/main/java/com/example/customer_api/service/CustomerServiceImpl.java:181-214 | a partial update with all fields absent leaves the store as it was and answers like a read |
| ServiceProperties.PartialUpdateLeaksNoWrite | customer-api/src/main/java/com/example/customer_api/service/CustomerServiceImpl.java:186-199 | when the email is refused, the name applied to the loaded entity before the check is not persisted |
| ServiceProperties.ListingAndSearchAgree | customer-api/src/main/java/com/example/customer_api/service/CustomerServiceImpl.java:115-169 | where the strict listing accepts a status text, the search filters on the same variant; where the listing raises NotFound, the search drops the filter |
| ServiceProperties.ResponseStatusIsListable | customer-api/src/main/java/com/example/customer_api/service/CustomerServiceImpl.java:118-142 | the status text of any response is accepted by the strict listing as that customer's status |
| ServiceProperties.ApplyPreservesValid | customer-api/src/main/java/com/example/customer_api/service/CustomerServiceImpl.java:54-214 | every write command keeps codes unique and emails unique |
| ServiceProperties.RunPreservesValid | customer-api/src/main/java/com/example/customer_api/service/CustomerServiceImpl.java:54-214 | code and email uniqueness hold after any history of creates, updates, partial updates and deletes |
| ServiceProperties.ApplyKeepsCodes | customer-api/src/main/java/com/example/customer_api/service/CustomerServiceImpl.java:92 | one write keeps every surviving row's code and does not bring back a retired identifier |
| ServiceProperties.RunNeverRevives | customer-api/src/main/java/com/example/customer_api/service/CustomerServiceImpl.java:99-104 | an identifier that was handed out and then removed never reappears in any later history |
| ServiceProperties.RunKeepsCodes | customer-api/src/main/java/com/example/customer_api/service/CustomerServiceImpl.java:92 | a customer present before and after any history of writes still has its original code |

## Left out

- `getAllCustomers` paging: `PageRequest.of`, `findAll(pageable)`, sort execution and `Page.map` belong to the persistence framework. Only the sort order the service builds is modelled (`SortFor`).
- `searchCustomers`: the repository query text is not part of this model. The service only maps the query's rows to responses.
- `advancedSearch` query semantics: the repository query text is not part of this model. Only the filter the service hands it is modelled (`AdvancedSearch`).
- Identifier generation, and how the store fills in `status` and `createdAt` on save: these are store behaviour. They enter the model as parameters (`newId`, `StoreDefaults`).
- The `CustomerStatus` enum and the entity and DTO classes are not part of this model. The variants are taken to be `ACTIVE` and `INACTIVE`.
- Case folding covers ASCII letters only. Java's `toUpperCase` maps some non-ASCII characters onto ASCII letters, for example dotless `ı` becomes `I`. Texts relying on that are not modelled.
- The model assumes a default locale with no special casing rules. `toUpperCase()` follows the JVM's default locale. Under a Turkish or Azeri locale, "active" upper-cases to "ACTİVE" (dotted capital I), so `valueOf` rejects it in `getCustomersByStatus` and `advancedSearch`. The model accepts it as `ACTIVE`.
- Null arguments are not modelled, and neither are null request fields other than `phone` and `address`. Those two are nullable (`Option`) in the entity and in both requests.
- Null `sortDir`: `sortDir.equalsIgnoreCase` dereferences it and raises `NullPointerException`.
- Null `statusStr` in `getCustomersByStatus`: `statusStr.toUpperCase()` dereferences it and raises `NullPointerException`.
- Null email in a full update: the service raises nothing itself. `equals(null)` is false, so it calls `existsByEmail(null)` and saves a null email. What the repository does with a null is not part of this model.
- Null identifiers: the service only hands the id to the repository. What the repository does with a null id is not part of this model.
- Email and code equality is exact text equality. A database collation that compares case-insensitively is not modelled.
- Exception message text is left out. An error records only its kind and the id, field or status text it concerns.
- The transaction machinery is left out. Only its all-or-nothing outcome is modelled: a failing operation returns its input store.
- The store is assumed never to reuse an identifier. The history lemmas (`ServiceProperties.RunNeverRevives`, `ServiceProperties.RunKeepsCodes`) draw new identifiers from a sequence that only grows. The service itself does not guarantee this; the store's id generation does.
- Concurrency is left out. Two concurrent creates can both pass the duplicate pre-check; the database's unique constraints decide that race.
- Dependency injection and the controller/HTTP mapping are left out.
