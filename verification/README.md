# NBN ordering and application listing, modelled in Dafny

This project models the business logic of a small administrative backend for
telecom service applications. The backend does three things:

- **Order placement** (`NbnOrderService`). It selects the applications in
  status "order" on an NBN plan. For one application it validates six fields:
  address_1, address_2, city, state, postcode and the plan name. It then
  either calls the provider or reads a fixture response. Finally it moves the
  application to `Complete`, storing the provider's order id, or to
  `OrderFailed`.
- **Order dispatch** (`ProcessNbnApplicationsAction`). It queues one order
  job per selected application. It answers `200 {"message": ...}`, or
  `500 {"error": <exception message>}` when the lookup or a push throws.
- **Application listing** (`ApplicationService` with `ListApplicationsRequest`).
  A whitelist validator guards an optional plan-type filter. The lister sorts
  oldest first by `created_at`, serves pages of ten, and projects each row to
  its display shape. That shape has a conditional `order_id` and the monthly
  cost formatted as `"1,234.56"`.

Every operation is a pure function over immutable records, except the
dispatcher, which is a method whose loop is proved against a declarative
reference. Things outside the code become parameters:

- the database is a `seq<Application>` in storage order;
- the provider's HTTP reply is a function `Payload -> ProviderResponse`;
- the decoded fixture file and the `USE_REAL_REQUEST` switch form an `Env`;
- an `\Exception` thrown by the lookup or by a queue push is an optional message.

Modules: `Wrappers` (`Option` and `Result`), `Records` (the datatypes), `Seqs` (order-preserving filter),
`NbnOrderService`, `ProcessNbnApplications`, `CreatedAtOrder` (the stable
sort), `MoneyFormat`, `ApplicationService`, `ListApplicationsRequest`, and
`Scenarios`: the two order feature tests, the dispatch feature test, the
listing test's displayed cost, and further concrete cases of the model.

Behaviour of the code worth knowing, which the model keeps:

- **A Complete application can have a null order id.** The order id is
  copied from the response's `id` value without a check, so a
  "Successful" response whose `id` is an explicit JSON `null` completes the
  application with a null order id. A "Successful" response with no `id`
  key throws instead, and nothing is saved. `PlaceOrderKeepsOrderIdInvariant`
  states exactly when "order id set exactly when Complete" survives.
- **An unreadable response throws before saving.** A body that is not a
  JSON object or array, or one without a `status` key, makes the status
  read throw. The application stays in status "order".
- **A failed push is caught too.** The dispatcher turns an `\Exception` from
  the lookup or from any push into an error answer. Jobs pushed before the
  failing one stay queued.
- **The fixture is always read.** The fixture file is read and decoded even
  when the real request is used, and before validation. In the model this
  only matters for I/O errors, which are left out.
- **`plan_type=null` is a real filter.** The literal string "null" passes the
  validator as a value. It is not absence, so the listing keeps only plans of
  type "null".

## Model

| member | source | states |
|---|---|---|
| NbnOrderService.SelectForOrder | app/Services/NbnOrderService.php:18-25 | an application is selected if and only if it is stored, its status is "order" and its plan type is "nbn" |
| NbnOrderService.SelectForOrderCounts | app/Services/NbnOrderService.php:20-24 | each eligible application is selected as many times as it is stored; no other application is selected |
| NbnOrderService.SelectForOrderPreservesOrder | app/Services/NbnOrderService.php:20-24 | selecting from a table split in two gives the two selections in order, so the selection keeps storage order |
| NbnOrderService.SelectAllEligible | app/Services/NbnOrderService.php:20-24 | a table whose every row is in status "order" on an "nbn" plan is selected whole, in storage order |
| NbnOrderService.BrokenRule | app/Services/NbnOrderService.php:76-81 | under `required\|string`, a value passes exactly when it is a non-blank string; null and blank strings break `required`, other values break `string` |
| NbnOrderService.FirstError | app/Services/NbnOrderService.php:84-85 | reports no error exactly when every field passes; otherwise reports a failing field and its rule, with every earlier field passing |
| NbnOrderService.Validate | app/Services/NbnOrderService.php:66-89 | succeeds exactly when all six fields pass; the payload carries exactly the application's six values; a failure names the first failing field in rule order and the rule it broke |
| NbnOrderService.ApplyResponse | app/Services/NbnOrderService.php:98-121 | a body that is not an array throws; a missing status key throws; status exactly "Successful" gives Complete with the response's id, or throws when the id key is missing; any other status gives OrderFailed with the order id untouched; no other field changes |
| NbnOrderService.ChosenResponse | app/Services/NbnOrderService.php:43-50 | the provider's reply to the payload when real requests are on, the decoded fixture otherwise |
| NbnOrderService.PlaceOrder | app/Services/NbnOrderService.php:34-57 | throws a validation error exactly when some field fails, and then nothing is sent; otherwise it POSTs the payload only when real requests are on; an unreadable response (not an array, no status, success without id) throws; any exception leaves the row unsaved; otherwise the outcome follows the chosen response's status, and only status and order_id change |
| NbnOrderService.OutcomeDependsOnlyOnResponse | app/Services/NbnOrderService.php:37-50 | two environments that choose the same response lead to the same stored row and the same exception, whether the response is a fixture or a real reply |
| NbnOrderService.PlaceOrderKeepsOrderIdInvariant | app/Services/NbnOrderService.php:34-57 | for a fresh "order" application, "order id set exactly when Complete" holds after placement, thrown or not, unless the response is "Successful" with an explicitly null id |
| ProcessNbnApplications.FirstRefusal | app/Actions/ProcessNbnApplicationsAction.php:35-38 | the dispatch loop stops at the first application whose push throws: every earlier push succeeded |
| ProcessNbnApplications.Process | app/Actions/ProcessNbnApplicationsAction.php:30-43 | the loop queues one job per selected application, in selection order, up to the first push that throws, and agrees with the declarative reference; with no failure every selected application gets a job and the answer is HTTP 200 with the fixed message, even for an empty selection; a failed lookup queues nothing and answers with its message |
| ProcessNbnApplications.PushAll | app/Actions/ProcessNbnApplicationsAction.php:35-38 | pushes one job per application in order; the jobs are exactly those before the first push that throws, and the answer is that push's message, or success when none throws |
| ProcessNbnApplications.DispatchIsPartialOnError | app/Actions/ProcessNbnApplicationsAction.php:32-42 | the queued jobs are always a prefix of the selection's ids, kept when an error follows; the answer is the success message or HTTP 500 whose message is exactly the one the lookup or a selected application's push threw |
| ProcessNbnApplications.AllEligibleAllQueued | app/Actions/ProcessNbnApplicationsAction.php:32-39 | when every stored application is eligible and no push throws, each application gets one job, in storage order, and the answer is success |
| CreatedAtOrder.Insert | app/Services/ApplicationService.php:26 | insertion adds exactly the one row and keeps all the others |
| CreatedAtOrder.InsertSorted | app/Services/ApplicationService.php:26 | inserting into an oldest-first sequence keeps it oldest first |
| CreatedAtOrder.SortByCreatedAt | app/Services/ApplicationService.php:26 | the result is ordered oldest first and is a permutation of the input |
| CreatedAtOrder.SortIsStable | app/Services/ApplicationService.php:26 | rows created at the same time keep their storage order |
| CreatedAtOrder.SortUnique | app/Services/ApplicationService.php:26 | any oldest-first ordering that keeps ties in storage order equals the sort's result |
| ApplicationService.Candidates | app/Services/ApplicationService.php:20-25 | an absent, empty or falsy plan type keeps every application; a truthy one keeps exactly the applications whose plan type equals it |
| ApplicationService.CandidatesCounts | app/Services/ApplicationService.php:20-25 | under a truthy plan type each application of that type is kept as many times as it is stored, others never, and the kept rows stay in storage order |
| ApplicationService.CurrentPage | app/Services/ApplicationService.php:27 | the requested page when it is at least one, otherwise page one |
| ApplicationService.LastPage | app/Services/ApplicationService.php:27 | the last page is at least one and is the smallest page count whose pages of ten hold every row |
| ApplicationService.PageSlice | app/Services/ApplicationService.php:27 | page k holds at most ten rows, namely the rows at positions (k-1)*10 up to k*10 |
| ApplicationService.PagesPartition | app/Services/ApplicationService.php:27 | pages one, two, and so on, joined in order give back the whole sequence; pages past the last are empty |
| ApplicationService.ProjectRow | app/Services/ApplicationService.php:29-44 | id, address_1, state, plan type and name are copied; the full name is first + " " + last; order_id appears exactly when the status is Complete and an order id is set, and then equals it; the cost is the formatted cost, which parses back to the stored cents |
| ApplicationService.ProjectRows | app/Services/ApplicationService.php:29-45 | the projection keeps row count and order |
| ApplicationService.Ordered | app/Services/ApplicationService.php:20-26 | the candidates, oldest first, as a permutation |
| ApplicationService.ListApplications | app/Services/ApplicationService.php:18-48 | at most ten rows, which are the projected rows of the requested page (page one when the request names none or a page below one) of the ordered candidates; total counts every candidate; under a truthy plan type every row has that plan type |
| ApplicationService.ProjectionCommutesWithPaging | app/Services/ApplicationService.php:27-45 | projecting the rows of a page equals taking that page of the projected rows |
| ApplicationService.ListingCoversCandidates | app/Services/ApplicationService.php:18-47 | with the same order for tied rows on every request, reading the pages in order shows every candidate exactly once, oldest first; the listing for page k is page k of the projected, ordered candidates |
| MoneyFormat.Group | app/Services/ApplicationService.php:37 | thousands grouping gives comma-separated groups of three digits after a leading group of one to three, and removing the commas gives back the digits |
| MoneyFormat.FormatCost | app/Services/ApplicationService.php:37 | the display is the dollars (cents div 100) grouped in thousands, then ".", then cents mod 100 as two digits; the dollars are exactly "0" under one dollar and have no leading zero otherwise |
| MoneyFormat.FormatCostRoundTrip | app/Services/ApplicationService.php:37 | parsing the displayed cost gives back the stored cents |
| MoneyFormat.FormatCostInjective | app/Services/ApplicationService.php:37 | different costs are displayed differently |
| MoneyFormat.FormatCostCanonical | app/Services/ApplicationService.php:37 | the formatted cost is the only string that parses back to the cents without a leading zero in the dollars |
| ListApplicationsRequest.Validate | app/Http/Requests/ListApplicationsRequest.php:17-37 | accepts an absent value, a blank value, or exactly "null", "nbn", "opticomm" or "mobile", returning the value unchanged; rejects anything else with 422, "Validation failed" and the plan_type/in error |
| ListApplicationsRequest.Authorize | app/Http/Requests/ListApplicationsRequest.php:12-15 | every caller is authorized to list applications |
| ListApplicationsRequest.Handle | app/Http/Requests/ListApplicationsRequest.php:12-37 | a listing request is never refused for authorization; it is rejected with 422, "Validation failed" and the plan_type/in error exactly when its plan type is not allowed; an accepted request lists with the plan type as given |
| ListApplicationsRequest.AcceptedPlanTypeFilters | app/Http/Requests/ListApplicationsRequest.php:20 | an accepted absent or empty plan type lists everything; an accepted whitelisted type lists exactly the applications of that type |
| ListApplicationsRequest.LiteralNullIsAFilter | app/Http/Requests/ListApplicationsRequest.php:20 | "null" is accepted and filters for plan type "null"; it is not the same as absence |
| Scenarios.SuccessfulFixtureCompletes | tests/Feature/OrderNbnApplicationActionTest.php:31-60 | against the success fixture the sample application becomes Complete with order id "ORD000000000000" |
| Scenarios.FailedFixtureLeavesOrderIdNull | tests/Feature/OrderNbnApplicationActionTest.php:62-92 | against any other fixture status the sample application becomes OrderFailed and its order id stays null |
| Scenarios.DispatchFiveEligible | tests/Feature/ProcessNbnApplicationsActionTest.php:14-42 | five eligible applications and a queue that accepts every push give five jobs, one per application, and status 200 |
| Scenarios.SuccessWithoutIdThrows | app/Services/NbnOrderService.php:98-106 | a "Successful" fixture without an id throws before the application is saved |
| Scenarios.UnreadableReplyThrows | app/Services/NbnOrderService.php:48-55 | a provider reply that is not JSON throws after the request was sent, and the application stays as it was |
| Scenarios.MissingAddressLineThrows | app/Services/NbnOrderService.php:66-86 | a missing address_2 raises the required error for that field before anything is sent or saved |
| Scenarios.CostDisplaySmall | app/Services/ApplicationService.php:37 | 4999 cents display as "49.99" |
| Scenarios.CostDisplayThousands | app/Services/ApplicationService.php:37 | 123456 cents display as "1,234.56" |

## Left out

- Persistence: Eloquent queries, `whereHas`, `with` and `save()` are not modelled. A saved application is the `row` that `PlaceOrder` returns. The tables are sequences in storage order.
- Ties and collation: the order of rows that share a `created_at` is not fixed by SQL. The model keeps storage order, as a stable sort would. Plan types compare by exact string equality; database collation rules are not modelled.
- ListingCoversCandidates: the cover property assumes every page query orders tied rows the same way. Each page is a separate query, and SQL may order rows sharing a `created_at` differently each time; when such a tie straddles a page boundary, one row can show on two pages and another on none. The property holds as stated when `created_at` values are distinct.
- Configuration and I/O: `env(...)`, `file_get_contents`, `json_decode` and `Http::post` are parameters (`Env`, `post`). Exceptions they could raise, such as a missing fixture file or a network error, are not modelled. The decoded body is `NotAnArray` when it is not a JSON object or array, and otherwise records which of the `status` and `id` keys are present. A nested JSON array or object as a key's value is represented by a non-string `Scalar`, which compares unequal to "Successful".
- Exceptions: warnings raised by reading a missing key or indexing a non-array are taken to be turned into exceptions by the framework's error handler, as Laravel does by default. The exception's message text is not modelled, only its cause.
- Process: only `\Exception` is caught; an `\Error` (a `TypeError`, say) thrown by the lookup or a push escapes the action and is answered by the framework's handler, which is not modelled.
- Queue: job serialization, workers, retries and `AutomateNbnOrderJob::handle` are left out. A dispatched job is its application's id. A push that throws does not queue its job.
- `OrderNbnApplicationAction`: it only delegates to `placeOrder`, so `PlaceOrder` stands for it.
- HTTP shell: controllers, responders, and the paginator's URLs and links are left out. The `page` query parameter reaches the model already parsed, as `Option<int>`.
- Framework input middleware (trimming, empty string to null) is not modelled. The validator sees the raw query value.
- Validate: the query value is a string or absent; an array-valued query such as `plan_type[]=nbn`, which the `in` rule rejects with 422, is not modelled.
- Validation message texts come from the framework's language files. Errors are modelled as field and rule; the `Validation failed` message and the 422 status are modelled.
- Money: `number_format` works on a float. The model formats non-negative integer cents exactly, so float rounding of very large amounts and negative costs are not modelled.
- Statuses: the contents of the `ApplicationStatus` enum are not part of this model. Statuses are `Order` (stored as "order"), `Complete`, `OrderFailed` and `Other`.
- Missing rows: every application is assumed to have its plan and customer. The case where the relation is missing is not modelled.
