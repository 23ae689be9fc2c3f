# Maintenance-request intake and admin listing, modelled in Dafny

This project models two parts of the property-management web front end.

The first part is the tenant's maintenance-request form (`src/app/page.tsx`). It has four
text fields with per-keystroke validation. Its submit handler validates the fields, looks
up or creates the tenant by trimmed phone number and the property by trimmed address, and
then either opens a new maintenance request or, when the pair already has an active one
("In Progress" or "Scheduled"), logs the submission as a conversation message on it. On
success it clears the form.

The second part is the administrator's dashboard listing (`src/app/admin/page.tsx`). The
joined request rows arrive oldest first. They are reduced to the first row per (tenant,
property) pair and shown newest first.

Modules:

- `Options`, `Text` (`text.dfy`): an `Option` type; JavaScript `trim`, the `\s` class and
  `.length` counted in UTF-16 code units.
- `Validation` (`validation.dfy`): the four validators, the phone pattern and `isFormValid`.
- `Records` (`records.dfy`): the four tables as a value `Db` with its invariant, and the
  `Store` class through which the form reads and writes them. Each store call takes a
  `failed` flag standing for the error the database client may report.
- `Reconcile` (`reconcile.dfy`): a pure specification of what one valid submission does to
  the store (`Reconcile`), with lemmas about it.
- `Intake` (`intake.dfy`): the `IntakeForm` class, with the form state, the change handlers
  and `HandleSubmit`. The store part of `HandleSubmit` is proved equal to `Reconcile`.
- `Admin` (`admin.dfy`): the first-per-pair fold as a function and as a loop, the
  newest-first sort, and the `AdminDashboard` class.

Store failures are an input: a `Faults` record says which of the seven store calls of a
submission report an error. The store's clock reading for new rows is a parameter `now`.
The store invariant `Db.Valid` is an assumption the model makes about the store; the
source does not show the database enforcing any of it:
- phones are unique;
- addresses are unique;
- there is at most one active request per pair;
- identifiers are fresh.

With this invariant, a `.single()` lookup returns either the one matching row or "no rows"
(`PGRST116`). An empty `Store` satisfies the invariant, `Reconcile` keeps it
(`ReconcilePreservesValid`), and so does a press of the submit button
(`SubmitKeepsStoreValid`).

## Model

| member | source | states |
|---|---|---|
| Text.Trim | src/app/page.tsx:26 | the trimmed value starts and ends with a non-whitespace character |
| Text.LeadingWhitespace | src/app/page.tsx:26 | the counted prefix is all whitespace and the character after it is not |
| Text.TrailingWhitespace | src/app/page.tsx:26 | the counted suffix is all whitespace and the character before it is not |
| Text.TrimIsInfix | src/app/page.tsx:26 | the trimmed value is the input with some whitespace removed at the front and some at the back |
| Text.TrimEmptyIffAllWhitespace | src/app/page.tsx:26 | `!value.trim()` holds exactly when the value is all whitespace |
| Text.TrimIdempotent | src/app/page.tsx:26 | trimming twice gives the same as trimming once |
| Text.TrimOfTrimmed | src/app/page.tsx:26 | a value with no whitespace at either end trims to itself |
| Text.Utf16Length | src/app/page.tsx:27 | `.length` lies between the number of code points and twice that, and equals it exactly when no code point is above U+FFFF |
| Validation.ValidateName | src/app/page.tsx:25-29 | the result is empty exactly when the trimmed name has at least 2 code units; it is "Name is required" exactly when the value is all whitespace; otherwise it is the too-short message |
| Validation.PhoneShaped | src/app/page.tsx:33-34 | the phone matcher: an optional leading `+`, then at least ten digits, whitespace, `-`, `(` or `)`; `PhoneShapedIffPattern` proves it accepts exactly the pattern's language |
| Validation.PhoneShapedIffPattern | src/app/page.tsx:33-34 | the matcher accepts exactly the language of `^[\+]?[0-9\s\-\(\)]{10,}$` |
| Validation.ValidatePhone | src/app/page.tsx:31-36 | the result is empty exactly when the trimmed phone matches the pattern; it is the required message exactly when the value is all whitespace; otherwise it is "Please enter a valid phone number" |
| Validation.ValidateAddress | src/app/page.tsx:38-42 | the result is empty exactly when the trimmed address has at least 5 code units; it is the required message exactly when the value is all whitespace; otherwise it is the incomplete-address message |
| Validation.ValidateIssue | src/app/page.tsx:44-48 | the result is empty exactly when the trimmed issue has at least 10 code units; it is the required message exactly when the value is all whitespace; otherwise it is the more-details message |
| Validation.ValidateAll | src/app/page.tsx:87-97 | the error record is all empty exactly when the form is valid |
| Validation.IsFormValid | src/app/page.tsx:72-79 | the form is valid exactly when the trimmed name, phone, address and issue meet all four length or pattern conditions |
| Validation.ShortNameRejected | src/app/page.tsx:27 | a one-letter name gets the too-short message |
| Validation.ShortPhoneRejected | src/app/page.tsx:34 | "12345" gets the invalid-phone message |
| Validation.ShortAddressRejected | src/app/page.tsx:40 | "Rd" gets the incomplete-address message |
| Validation.ShortIssueRejected | src/app/page.tsx:46 | "broken" gets the more-details message |
| Validation.ShortPhoneInvalid | src/app/page.tsx:31-36 | a phone that is not blank but has fewer than ten characters once trimmed is rejected as invalid |
| Validation.KnownLength | src/app/page.tsx:26-27 | an ASCII value without surrounding whitespace trims to itself, and its `.length` is its number of characters |
| Records.TenantWithPhone | src/app/page.tsx:108-112 | the lookup finds nothing exactly when no tenant has the phone; what it finds is the id of a tenant with that phone |
| Records.PropertyWithAddress | src/app/page.tsx:133-137 | the lookup finds nothing exactly when no property has the address; what it finds is the id of a property at that address |
| Records.ActiveRequestFor | src/app/page.tsx:158-164 | the lookup finds nothing exactly when the pair has no request with status In Progress or Scheduled; what it finds is such a request |
| Records.LookupOf | src/app/page.tsx:114-127 | how a `.single()` result is read: an error reported by the client is `LookupFailed`; otherwise the matching row gives `Found` with its id, and no row gives `NotFound` (the `PGRST116` code) |
| Records.TenantWithPhoneFinds | src/app/page.tsx:108-112 | with unique phones, the lookup returns the id of the tenant that has the phone |
| Records.PropertyWithAddressFinds | src/app/page.tsx:133-137 | with unique addresses, the lookup returns the id of the property at the address |
| Records.ActiveRequestForFinds | src/app/page.tsx:158-164 | with at most one active request per pair, the lookup returns that request's id |
| Records.TenantWithPhoneAppend | src/app/page.tsx:108-120 | after inserting a tenant for a phone no row had, the lookup finds the new tenant exactly when it has the phone |
| Records.PropertyWithAddressAppend | src/app/page.tsx:133-145 | after inserting a property for an address no row had, the lookup finds the new property exactly when it has the address |
| Records.AddTenantValid | src/app/page.tsx:116-120 | inserting a tenant whose phone is not stored keeps the store invariant |
| Records.AddPropertyValid | src/app/page.tsx:141-145 | inserting a property whose address is not stored keeps the store invariant |
| Records.AddRequestValid | src/app/page.tsx:166-179 | inserting a request for a pair with no active request keeps the store invariant |
| Records.AddConversationValid | src/app/page.tsx:190-196 | inserting a conversation row keeps the store invariant |
| Records.Store.SelectTenantByPhone | src/app/page.tsx:108-112 | the result is Found, NotFound (`PGRST116`) or an error, according to the tenants table and the failure flag |
| Records.Store.SelectPropertyByAddress | src/app/page.tsx:133-137 | the result is Found, NotFound or an error, according to the properties table and the failure flag |
| Records.Store.SelectActiveRequest | src/app/page.tsx:158-164 | the result is Found, NotFound or an error, according to the requests table and the failure flag |
| Records.Store.InsertTenant | src/app/page.tsx:116-120 | a successful insert appends one tenant row with a fresh id and returns that id; a failed one changes nothing |
| Records.Store.InsertProperty | src/app/page.tsx:141-145 | a successful insert appends one property row with a fresh id and returns that id; a failed one changes nothing |
| Records.Store.InsertRequest | src/app/page.tsx:170-179 | a successful insert appends one request with the default status and returns its id; a failed one changes nothing |
| Records.Store.InsertConversation | src/app/page.tsx:190-196 | a successful insert appends one conversation row; a failed one changes nothing |
| Reconcile.ResolveTenant | src/app/page.tsx:108-130 | the tenant step: a failed lookup aborts with "Error finding tenant"; a found tenant is reused; on no rows a tenant is inserted, or the step aborts with "Error creating tenant record"; `ResolveTenantCases` states this over the tenants table |
| Reconcile.ResolveProperty | src/app/page.tsx:133-155 | the property step, with the same rule keyed by the address and the property alerts; `ResolvePropertyCases` states it over the properties table |
| Reconcile.ResolveRequest | src/app/page.tsx:158-200 | the request step: no active request inserts one (or fails with "Error creating maintenance request"); an active one gets a "tenant" conversation row whose insert result is ignored; a failed lookup fails with "Unexpected error checking for existing requests"; `ResolveRequestCases` states it over the tables |
| Reconcile.Reconcile | src/app/page.tsx:106-200 | the whole submission on the trimmed values: the tenant, property and request steps in order, ending at the first abort and keeping what earlier steps inserted; its properties are the `Reconcile*` lemmas below |
| Reconcile.ResolveTenantCases | src/app/page.tsx:108-130 | a failed lookup aborts with "Error finding tenant"; a stored phone reuses that tenant and writes nothing; an unknown phone inserts one tenant, or aborts with "Error creating tenant record" if the insert fails |
| Reconcile.ResolvePropertyCases | src/app/page.tsx:133-155 | the same find, insert or abort rule for properties, keyed by the trimmed address |
| Reconcile.ResolveRequestCases | src/app/page.tsx:158-200 | with no active request, one request is inserted or the submission fails with "Error creating maintenance request"; with one, "Additional details: " + issue is logged on it as sender "tenant" and the submission succeeds even if that insert fails; a failed lookup fails with "Unexpected error checking for existing requests" |
| Reconcile.ReconcilePreservesValid | src/app/page.tsx:108-200 | a submission keeps phones and addresses unique and at most one active request per pair |
| Reconcile.ReconcileOnlyAppends | src/app/page.tsx:108-200 | a submission only appends, at most one row per table, the new rows carry the trimmed values, and a request row comes only with Created and a conversation row only with Appended |
| Reconcile.ReconcileReusesTenant | src/app/page.tsx:108-130 | a tenant whose phone is already stored is never inserted again |
| Reconcile.ReconcileReusesProperty | src/app/page.tsx:133-155 | a property whose address is already stored is never inserted again |
| Reconcile.ReconcileTenantFailure | src/app/page.tsx:114-130 | a failed tenant lookup ends the submission with "Error finding tenant", and a failed insert of a new tenant with "Error creating tenant record"; nothing is written in either case |
| Reconcile.ReconcileKeepsNewTenant | src/app/page.tsx:121-155 | there is no rollback: a tenant inserted before the property step failed stays in the store |
| Reconcile.ReconcileCreatesOrAppends | src/app/page.tsx:158-200 | on success the outcome is Created exactly when the stored tenant and property had no active request; Created adds exactly one request and no conversation; Appended adds no request and names the pair's active request |
| Reconcile.TenantStepLooksUp | src/app/page.tsx:108-130 | after a resolved tenant step, looking the phone up gives the tenant it resolved to |
| Reconcile.PropertyStepLooksUp | src/app/page.tsx:133-155 | after a resolved property step, looking the address up gives the property it resolved to |
| Reconcile.ResolvedIdsFound | src/app/page.tsx:108-155 | after both lookups resolved, the store maps the phone and the address to the resolved ids, and requests and conversations are untouched |
| Reconcile.RequestStepLeavesActive | src/app/page.tsx:158-200 | a fault-free request step succeeds, touches no tenant or property, and leaves the pair's active request as its own request when that is active, and none otherwise |
| Reconcile.ReconcileWithoutFaultsSucceeds | src/app/page.tsx:106-207 | when no store call fails, the submission succeeds |
| Reconcile.FirstSubmissionStores | src/app/page.tsx:106-200 | a fault-free submission succeeds and leaves the phone and the address stored, and its request is the pair's active one exactly when it is active |
| Reconcile.SecondSubmissionResolves | src/app/page.tsx:106-158 | once the phone and the address are stored, a fault-free submission goes straight to the request step with the stored ids |
| Reconcile.ReconcileTwice | src/app/page.tsx:106-207 | a repeated identical submission adds no tenant or property; it is appended to the first one's request when that request is active, and otherwise creates another request |
| Intake.IntakeForm.HandleNameChange | src/app/page.tsx:51-54 | sets the name and only the name's error entry, to the validator's result; the other fields and entries are unchanged |
| Intake.IntakeForm.HandlePhoneChange | src/app/page.tsx:56-59 | sets the phone and only the phone's error entry |
| Intake.IntakeForm.HandleAddressChange | src/app/page.tsx:61-64 | sets the address and only the address's error entry |
| Intake.IntakeForm.HandleIssueChange | src/app/page.tsx:66-69 | sets the issue and only the issue's error entry |
| Intake.IntakeForm.HandleSubmit | src/app/page.tsx:81-247 | while loading nothing changes; an invalid form sets the errors to the four validator results and writes nothing to the store; a valid form leaves the store as `Reconcile` on the trimmed values says, clears the fields exactly on success, and ends with loading off |
| Intake.IntakeForm.SubmitValidForm | src/app/page.tsx:104-200 | the store ends as `Reconcile` on the trimmed field values says, the fields and the error record are untouched, and loading is off again at the end |
| Intake.IntakeForm.ClearFormIf | src/app/page.tsx:202-207 | on success all four fields and all error entries become empty; otherwise fields and errors are unchanged; loading is untouched |
| Intake.SubmitKeepsStoreValid | src/app/page.tsx:81-247 | a press of the submit button on a store that satisfies `Db.Valid` leaves it satisfying `Db.Valid` |
| Intake.SubmitTrimmed | src/app/page.tsx:106-200 | the store calls on the trimmed values leave the store and outcome as `Reconcile` on the trimmed values says |
| Intake.SubmitToStore | src/app/page.tsx:106-200 | the store calls, with an early return at each failing step, leave the store and outcome as `Reconcile` says |
| Intake.FindOrCreateTenant | src/app/page.tsx:108-130 | the tenant step's store calls do what `ResolveTenant` says |
| Intake.FindOrCreateProperty | src/app/page.tsx:133-155 | the property step's store calls do what `ResolveProperty` says |
| Intake.CreateOrAppendRequest | src/app/page.tsx:158-200 | the request step's store calls do what `ResolveRequest` says |
| Admin.FindExisting | src/app/admin/page.tsx:44-47 | `acc.find` returns nothing exactly when no accumulated row has the pair, and otherwise the first accumulated row that has it |
| Admin.KeepFirstPerPair | src/app/admin/page.tsx:43-55 | the loop of find and push computes the first-per-pair fold |
| Admin.FirstPerPair | src/app/admin/page.tsx:43-55 | the `reduce`: a left fold that appends a row unless a row with the same (tenant, property) pair is already kept; `FirstPerPairUnique`, `FirstPerPairSamePairs` and `FirstPerPairMembers` characterise it |
| Admin.Listing | src/app/admin/page.tsx:43-60 | what `setRequests` receives: the first row per pair, sorted newest first; `ListingProperties` states its properties |
| Admin.FirstPerPairUnique | src/app/admin/page.tsx:43-55 | the reduced list has at most one row per (tenant, property) pair |
| Admin.FirstPerPairSamePairs | src/app/admin/page.tsx:43-55 | a pair occurs in the reduced list exactly when it occurs in the fetched rows |
| Admin.FirstPerPairMembers | src/app/admin/page.tsx:43-55 | a row is in the reduced list exactly when it is a fetched row that is the first of its pair in fetch order |
| Admin.KeptRowIsOldest | src/app/admin/page.tsx:35-55 | when the rows come ordered by ascending `created_at`, the row kept for a pair is no newer than any fetched row of that pair |
| Admin.FirstPerPairFromInput | src/app/admin/page.tsx:43-55 | every kept row is an unmodified fetched row, and none is kept more often than fetched |
| Admin.FirstPerPairOfUnique | src/app/admin/page.tsx:43-55 | a list with unique pairs is left as it is |
| Admin.FirstPerPairIdempotent | src/app/admin/page.tsx:43-55 | reducing the reduced list returns it unchanged |
| Admin.InsertByAge | src/app/admin/page.tsx:58 | the result is one row longer and starts with the inserted row or with the list's first row |
| Admin.InsertByAgeAddsOne | src/app/admin/page.tsx:58 | inserting adds exactly the one row and keeps all the others |
| Admin.InsertByAgeKeepsOrder | src/app/admin/page.tsx:58 | inserting into a newest-first list keeps it newest first |
| Admin.SortNewestFirst | src/app/admin/page.tsx:58 | the sorted list has non-increasing `created_at` and is a permutation of its input |
| Admin.UniquePairsPermuted | src/app/admin/page.tsx:58 | reordering a list with unique pairs keeps its pairs unique |
| Admin.HasPairPermuted | src/app/admin/page.tsx:58 | reordering a list keeps the set of pairs it holds |
| Admin.ListingProperties | src/app/admin/page.tsx:43-60 | the stored list is newest first, has one row per pair, holds exactly the pairs of the fetched rows, and is a permutation of the reduced list |
| Admin.ListingExample | src/app/admin/page.tsx:43-58 | rows A and B of one pair and C of another, in ascending time, give [C, A] |
| Admin.AdminDashboard.FetchRequests | src/app/admin/page.tsx:37-60 | a failed query leaves `requests` as it was; a successful one stores the reduced and sorted rows, with null data treated as no rows |

## Left out

- The webhook call after a successful submission (src/app/page.tsx:209-239) and the route it posts to (`src/app/api/webhook/route.ts`): they are network plumbing whose result never changes the form or the store.
- The request detail page (`src/app/admin/request/[id]/page.tsx`) is not part of this model.
- Rendering, the disabled-button state, badge colours, date formatting, `alert` and `console` output: alerts become the `Failed(alert)` outcome.
- Asynchrony: each store call is one atomic step, and no two submissions interleave. The `isLoading` guard is modelled as a flag checked on entry.
- The outer `catch` (src/app/page.tsx:241-243): a store call that throws instead of returning an error is not modelled. Each call's failure is modelled as the call reporting an error through `Faults`. For the tenant, property and request calls, a throw would show the generic "An unexpected error occurred" alert instead of the step's own alert.
- A throwing conversation insert (src/app/page.tsx:190-196) is not modelled either. The source then skips the form clearing at 203-207 and shows the generic alert. The model's `Faults.logConversation` stands only for an insert that returns an error, which the source ignores, so that submission still ends `Appended` and the form is cleared.
- Several rows matching one `.single()` lookup: the source's client reports `PGRST116` for that too, while the model's lookups return the first matching row. The store invariant `Db.Valid` (unique phones and addresses, at most one active request per pair) rules the case out. It is an assumption about the store: nothing in the source shows such constraints, and writers outside the form (an administrator changing a status) could break it. The form's own writes keep it, as `ReconcilePreservesValid` and `SubmitKeepsStoreValid` show.
- The database's default status for new requests is not visible in the source, so it is the `Store` constructor's parameter `defaultStatus`.
- JavaScript `Date` parsing: `created_at` is an integer timestamp.
- Strings are sequences of Unicode scalar values; lone UTF-16 surrogates cannot occur.
- Admin.SortNewestFirst: the sort is modelled as a function on a sequence, not in place on the array. It is a stable insertion sort, like `Array.prototype.sort`, but stability (the order of rows with equal `created_at`) is not stated or proved.
- Admin.AdminDashboard.FetchRequests: the query itself (the inner joins and the ascending order) is not modelled; the fetched rows are an input. The oldest-row property therefore assumes the ascending order as a precondition of `KeptRowIsOldest`.
