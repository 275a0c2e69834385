# Production orders: a verified model

This project models the core of a production-order system. An ASP.NET back
end keeps production orders, the products they make, the resources that work
on them and the production logs recorded against them. A React front end
lists, filters and pages the orders, cycles their status and edits them.

The model covers:

- **The store** (`schema.dfy`). It is a pure `DbState` value (orders, product
  codes, resources, logs and the two identity counters) plus a `Db` class
  whose fields are those tables. The database's check constraints, unique
  indexes and foreign keys make up one commit predicate, `Consistent`. A save
  (`SaveChanges`) writes the staged state when it is consistent and otherwise
  fails with a `DbUpdate` error, storing nothing. The three delete behaviours
  (cascade, set-null and restrict) are functions on the state.
- **The repositories** (`order_repository.dfy`, `log_repository.dfy`). The
  reads are functions. Each write is a method on `Db`, proved equal to a
  `…Spec` function that returns the result together with the next state.
  This includes the six-field copy of `UpdateAsync`, which leaves
  `QuantityProduced` as stored.
- **The services** (`order_service.dfy`, `log_service.dfy`). They run the
  checks in the source's order, each with its own error kind, then apply the
  defaults and the end-date rules. Appending a log applies the
  overproduction guard and adds the logged quantity to the order with
  unchecked 32-bit addition.
- **Invariants across operations** (`invariants.dfy`). Order numbers stay
  unique. Every order's produced count equals the wrapped sum of its logs.
  Both hold for a fresh, empty store and are preserved by create, update,
  append and the deletes. A store seeded with orders that were produced
  without logs is not balanced. What is preserved there is each order's
  unlogged part, the count minus its logged total: appends and resource
  deletes leave it unchanged.
- **The controllers** (`orders_controller.dfy`, `logs_controller.dfy`,
  `replies.dfy`). They cover trimming, id guards, the date-conflict guard, the
  field-by-field merge of a patch, and the mapping of service errors to HTTP
  answers (`Reply`).
- **The front end** (`order_list.dfy`, `app.dfy`, `order_form.dfy`,
  `edit_form.dfy`). It covers:
  - the status labels and the 1→2→3→1 cycle;
  - the case-insensitive search and the page slice;
  - the list's page state;
  - the optimistic status update;
  - the "ORD-" prefix codec;
  - the status-option mapping;
  - quantity parsing;
  - the state of the two order forms.

"Now" (`DateTime.UtcNow`, `new Date()`) is a parameter. A `DateTime` is a
count of ticks, and its `.Date` is `Day(t)`. The front end's API calls are
left out: a parameter says whether the call succeeded, or the handler's
result is the data it would send.

Status numbers are 0 (unset), 1 Planejada, 2 EmProducao and 3 Finalizada. The
enum declaration is not part of this model. The numbering follows the front
end and the service's use of 0 as "unset". CreateProductionLogDto is not part
of this model either: its three fields are taken from their use in the logs
controller.

Where the service's rules and the database's constraints disagree, the
model keeps both and proves the disagreement as a lemma:

- an order finished at the instant it starts (`FinishAtStartRefused`);
- an end date on the start's day (`SameDayEndRefused`);
- a planned quantity lowered below what was produced
  (`PlannedBelowProducedRefused`);
- a 32-bit overflow that slips past the overproduction guard
  (`OverflowPassesGuard`). In general, every log that makes produced plus
  quantity pass the largest `int` is accepted and stores a negative count
  (`OverflowWraps`).

## Model

| member | source | states |
|---|---|---|
| Base.Wrap32 | ProductionOrderApi/Services/ProductionLogService.cs:38-48 | unchecked 32-bit addition: the identity within int range, otherwise congruent modulo 2^32 |
| Base.Wrap32Add | ProductionOrderApi/Services/ProductionLogService.cs:47-48 | wrapping after each increment is the same as wrapping the running total |
| Base.Day | ProductionOrderApi/Models/UpdateProductionOrderDto.cs:23 | `.Date` as a day number: the day whose span of ticks contains the timestamp |
| Base.DayMonotone | ProductionOrderApi/Services/ProductionOrderService.cs:127-137 | calendar days never run backwards, and a strictly later day means a strictly later timestamp |
| Text.ParseInt | production-order-vite/src/components/ProductionOrderForm.tsx:212-218 | `parseInt`: empty or non-numeric text has no value; text that starts with a digit gives a non-negative number |
| Text.ParseDecimal | production-order-vite/src/components/ProductionOrderList.tsx:115-120 | parsing the decimal text of any integer gives that integer back |
| Text.NatDigitsValue | production-order-vite/src/components/ProductionOrderList.tsx:118 | the digit value of a number's decimal text is that number |
| Text.Trim | ProductionOrderApi/Controllers/OrdersController.cs:62-70 | `string.Trim`: a slice of the input that neither starts nor ends with white space |
| Text.TrimUnchanged | ProductionOrderApi/Controllers/OrdersController.cs:62-70 | text without white space at either end is its own trim |
| Text.TrimIdempotent | ProductionOrderApi/Controllers/OrdersController.cs:62-70 | trimming twice is trimming once |
| Text.TrimBlank | ProductionOrderApi/Controllers/OrdersController.cs:62-70 | all-blank text trims to the empty string |
| OrderStatus.IsValid | ProductionOrderApi/Models/ProductionOrderStatus.cs:16-19 | holds iff the name is exactly one of the three constants (case-sensitive) |
| OrderStatus.EnumName | ProductionOrderApi/Models/ProductionOrderStatus.cs:5-14 | the stored name of statuses 1, 2 and 3 is the matching entry of `All` |
| OrderStatus.TryParse | ProductionOrderApi/Repositories/ProductionOrderRepository.cs:88-91 | a parsed status is always one of 1, 2 or 3 |
| OrderStatus.PossibleStatuses | ProductionOrderApi/Services/ProductionOrderService.cs:19-22 | the possible statuses are exactly `All` |
| OrderStatus.AllDistinct | ProductionOrderApi/Models/ProductionOrderStatus.cs:9-14 | `All` has three entries, pairwise distinct |
| OrderStatus.ValidIffConstraint | ProductionOrderApi/Data/ApplicationDbContext.cs:32-34 | a name is valid iff the order status check constraint accepts it |
| OrderStatus.DecimalIsNoName | ProductionOrderApi/Models/ProductionOrderStatus.cs:16-19 | no integer's decimal text is a valid name |
| OrderStatus.StoredStatusAccepted | ProductionOrderApi/Data/ApplicationDbContext.cs:22-25 | the converted name of a status passes the check constraint iff the status is 1, 2 or 3 |
| OrderStatus.ParseNameRoundTrip | ProductionOrderApi/Repositories/ProductionOrderRepository.cs:88-91 | parsing succeeds iff the name is valid; parse and name are inverse on the three statuses |
| Schema.SaveChanges | ProductionOrderApi/Data/ApplicationDbContext.cs:32-71 | a save commits iff the staged state meets every constraint; a refused save stores nothing and fails with a DbUpdate error |
| Schema.LogsNotOf | ProductionOrderApi/Data/ApplicationDbContext.cs:47-51 | keeps exactly the logs of other orders |
| Schema.ClearResource | ProductionOrderApi/Data/ApplicationDbContext.cs:53-57 | every log of the resource loses its reference; every other log and the order of the logs stay |
| Schema.DeleteProduct | ProductionOrderApi/Data/ApplicationDbContext.cs:40-45 | deleting a product is refused iff some order references it; otherwise only that code goes |
| Schema.LogsNotOfIncreasing | ProductionOrderApi/Data/ApplicationDbContext.cs:47-51 | the cascade keeps log ids increasing |
| Schema.DeleteOrderKeepsConsistent | ProductionOrderApi/Data/ApplicationDbContext.cs:47-51 | the cascade keeps the database consistent and removes exactly the order's logs |
| Schema.DeleteResourceKeepsConsistent | ProductionOrderApi/Data/ApplicationDbContext.cs:53-57 | set-null keeps the database consistent, loses no log and leaves no reference to the resource |
| Schema.DeleteProductKeepsConsistent | ProductionOrderApi/Data/ApplicationDbContext.cs:40-45 | a product delete leaves the database consistent |
| Schema.EmptyIsConsistent | ProductionOrderApi/Data/ApplicationDbContext.cs:36-65 | an empty database over a valid catalogue is consistent |
| Schema.Db.constructor | ProductionOrderApi/Data/ApplicationDbContext.cs:13-16 | a fresh, empty store is valid and holds no orders or logs |
| Schema.Db.SaveChanges | ProductionOrderApi/Data/ApplicationDbContext.cs:32-71 | the fields become the staged state iff it is consistent; otherwise they stay |
| OrderRepository.GetAll | ProductionOrderApi/Repositories/ProductionOrderRepository.cs:17-23 | every stored order, unchanged |
| OrderRepository.GetById | ProductionOrderApi/Repositories/ProductionOrderRepository.cs:25-31 | the order with that id, or nothing iff there is none |
| OrderRepository.GetByOrderNumber | ProductionOrderApi/Repositories/ProductionOrderRepository.cs:33-44 | nothing iff no order other than the excluded id has the number; a result carries the number, is stored, is not the excluded id and has the least matching id |
| OrderRepository.GetByStatus | ProductionOrderApi/Repositories/ProductionOrderRepository.cs:86-98 | an argument error iff the name does not parse; otherwise exactly the orders with that status |
| OrderRepository.CreateSpec | ProductionOrderApi/Repositories/ProductionOrderRepository.cs:46-51 | adds exactly one order, under the next id, and nothing else; a refusal changes nothing |
| OrderRepository.CreateCommits | ProductionOrderApi/Repositories/ProductionOrderRepository.cs:46-51 | the new id is fresh; the insert commits iff the row passes its checks and its product exists |
| OrderRepository.CopyFields | ProductionOrderApi/Repositories/ProductionOrderRepository.cs:61-69 | the six fields come from the update; the id and QuantityProduced stay as stored |
| OrderRepository.ReplacedConsistent | ProductionOrderApi/Repositories/ProductionOrderRepository.cs:61-72 | replacing one row keeps consistency iff the row passes its checks and its product exists |
| OrderRepository.UpdateSpec | ProductionOrderApi/Repositories/ProductionOrderRepository.cs:53-73 | KeyNotFound iff the id is absent; a failure changes nothing; otherwise only that row changes, by the six-field copy |
| OrderRepository.UpdateTrackedSpec | ProductionOrderApi/Repositories/ProductionOrderRepository.cs:53-73 | saving the tracked entity writes every field of it, QuantityProduced included; KeyNotFound iff the id is absent |
| OrderRepository.UpdateCommits | ProductionOrderApi/Repositories/ProductionOrderRepository.cs:53-73 | an update of a present order commits iff the resulting row passes its checks and its product exists |
| OrderRepository.TrackedAgreesWithUpdate | ProductionOrderApi/Repositories/ProductionOrderRepository.cs:61-69 | with QuantityProduced unchanged, the tracked save and the six-field copy agree |
| OrderRepository.DeleteSpec | ProductionOrderApi/Repositories/ProductionOrderRepository.cs:75-84 | false and no change iff the id is absent; otherwise true, the order removed with its logs, and the database still consistent |
| OrderRepository.Create | ProductionOrderApi/Repositories/ProductionOrderRepository.cs:46-51 | the method's result and new state are those of CreateSpec |
| OrderRepository.Update | ProductionOrderApi/Repositories/ProductionOrderRepository.cs:53-73 | the method's result and new state are those of UpdateSpec |
| OrderRepository.UpdateTracked | ProductionOrderApi/Repositories/ProductionOrderRepository.cs:53-73 | the method's result and new state are those of UpdateTrackedSpec |
| OrderRepository.Delete | ProductionOrderApi/Repositories/ProductionOrderRepository.cs:75-84 | the method's result and new state are those of DeleteSpec |
| LogRepository.AddSpec | ProductionOrderApi/Repositories/ProductionLogRepository.cs:16-21 | the log is appended under the next id, with every earlier log and every other table untouched; a refusal changes nothing |
| LogRepository.AddCommits | ProductionOrderApi/Repositories/ProductionLogRepository.cs:16-21 | the insert commits iff the log is valid and its order and any named resource exist |
| LogRepository.ByOrder | ProductionOrderApi/Repositories/ProductionLogRepository.cs:23-29 | exactly the logs of that order; empty iff there are none |
| LogRepository.ByOrderAppend | ProductionOrderApi/Repositories/ProductionLogRepository.cs:23-29 | the filter keeps table order: filtering a concatenation concatenates the filtered parts |
| LogRepository.GetAll | ProductionOrderApi/Repositories/ProductionLogRepository.cs:31-37 | every log, in order |
| LogRepository.GetById | ProductionOrderApi/Repositories/ProductionLogRepository.cs:39-45 | nothing iff no log has the id; otherwise a stored log with that id |
| LogRepository.GetByIdFindsRow | ProductionOrderApi/Repositories/ProductionLogRepository.cs:39-45 | with increasing ids, looking up a stored log's id finds that log |
| LogRepository.Add | ProductionOrderApi/Repositories/ProductionLogRepository.cs:16-21 | the method's result and new state are those of AddSpec |
| OrderService.GetOrderById | ProductionOrderApi/Services/ProductionOrderService.cs:29-35 | an argument error iff the id is not positive; otherwise the stored order, or nothing iff absent |
| OrderService.GetOrdersByStatus | ProductionOrderApi/Services/ProductionOrderService.cs:142-153 | an argument error iff the name is empty or unknown; otherwise exactly the orders with that status |
| OrderService.DefaultStatus | ProductionOrderApi/Services/ProductionOrderService.cs:64-67 | an unset status becomes Planejada; any other is kept |
| OrderService.CreateSpec | ProductionOrderApi/Services/ProductionOrderService.cs:37-84 | every refusal the service raises itself leaves the store unchanged |
| OrderService.Prepared | ProductionOrderApi/Services/ProductionOrderService.cs:62-81 | before the save: nothing produced, the default status, and for a finished order the end date set to now; nothing else changed |
| OrderService.CreateArgumentErrors | ProductionOrderApi/Services/ProductionOrderService.cs:39-46 | an argument error iff the number or product code is empty or the planned quantity is not positive |
| OrderService.CreateInvalidOperations | ProductionOrderApi/Services/ProductionOrderService.cs:48-81 | with valid arguments: an invalid operation iff the number is taken, the product is unknown, or a finished order starts on a later day than today |
| OrderService.CreateSucceeds | ProductionOrderApi/Services/ProductionOrderService.cs:62-83 | a created order is the prepared row under a fresh id with zero produced, its number was free, and the logs are unchanged |
| OrderService.CreateDatabaseRefusal | ProductionOrderApi/Services/ProductionOrderService.cs:83 | once the service's checks pass, the save is refused iff the row breaks a check constraint |
| OrderService.FinishAtStartRefused | ProductionOrderApi/Services/ProductionOrderService.cs:69-81 | a finished order created at the instant it starts passes the service but is refused on save |
| OrderService.ResultingEndDate | ProductionOrderApi/Services/ProductionOrderService.cs:108-125 | a planned order has no end date, a finished one ends now, any other keeps its own |
| OrderService.UpdateSpec | ProductionOrderApi/Services/ProductionOrderService.cs:86-140 | every refusal the service raises itself leaves the store unchanged |
| OrderService.NumberTakenByOtherIff | ProductionOrderApi/Services/ProductionOrderService.cs:94-99 | the duplicate lookup finds an order iff another order has the number |
| OrderService.UpdateArgumentErrors | ProductionOrderApi/Services/ProductionOrderService.cs:88-92 | an argument error iff the id is not positive or not the order's, or, once the other checks pass, the end day is before the start day (equal days pass) |
| OrderService.UpdateInvalidOperations | ProductionOrderApi/Services/ProductionOrderService.cs:94-125 | with matching ids: an invalid operation iff another order has the number, the product is unknown, or a finished order starts on a later day |
| OrderService.OwnNumberNotDuplicate | ProductionOrderApi/Services/ProductionOrderService.cs:94-99 | keeping an order's own number never counts as a duplicate |
| OrderService.UpdateSucceeds | ProductionOrderApi/Services/ProductionOrderService.cs:108-139 | the stored row is the six-field copy carrying the rule's end date; the id, the produced count, every other row and the logs are kept |
| OrderService.UpdateDatabaseRefusal | ProductionOrderApi/Services/ProductionOrderService.cs:139 | once the service's checks pass, the save is refused iff the row breaks a check constraint |
| OrderService.SameDayEndRefused | ProductionOrderApi/Services/ProductionOrderService.cs:127-137 | an end on the start's day but not later in time passes the service and is refused by the database |
| OrderService.PlannedBelowProducedRefused | ProductionOrderApi/Services/ProductionOrderService.cs:86-139 | a planned quantity below the produced one is not checked by the service; the save refuses it |
| OrderService.CreateOrder | ProductionOrderApi/Services/ProductionOrderService.cs:37-84 | the method's result and new state are those of CreateSpec |
| OrderService.UpdateOrder | ProductionOrderApi/Services/ProductionOrderService.cs:86-140 | the method's result and new state are those of UpdateSpec |
| LogService.Increased | ProductionOrderApi/Services/ProductionLogService.cs:47-48 | the produced count becomes the wrapped sum; no other field changes |
| LogService.AppendSpec | ProductionOrderApi/Services/ProductionLogService.cs:22-51 | a guard failure leaves the store unchanged, and every outcome keeps the database consistent |
| LogService.AppendMissingOrder | ProductionOrderApi/Services/ProductionLogService.cs:24-26 | a missing order is an argument error and changes nothing |
| LogService.AppendArgumentErrors | ProductionOrderApi/Services/ProductionLogService.cs:24-36 | an argument error iff the order is missing, a named resource is missing, or the quantity is not positive; a null resource skips the resource check |
| LogService.AppendCommits | ProductionOrderApi/Services/ProductionLogService.cs:38-48 | the append succeeds iff every check passes and the order is not overfilled; an invalid operation iff it is overfilled; every failure changes nothing |
| LogService.AppendExactFill | ProductionOrderApi/Services/ProductionLogService.cs:38-43 | filling the order exactly to its plan is accepted |
| LogService.AppendSucceeds | ProductionOrderApi/Services/ProductionLogService.cs:45-48 | one log is appended under a fresh id; only that order's produced count changes; it stays within the plan and, without overflow, grows by exactly the quantity |
| LogService.OverflowWraps | ProductionOrderApi/Services/ProductionLogService.cs:38-48 | a positive log for an existing order and a known resource, whose produced plus quantity passes the largest int, is accepted, and the order stores produced + quantity − 2^32, a negative count |
| LogService.OverflowPassesGuard | ProductionOrderApi/Services/ProductionLogService.cs:38-48 | a full order with the largest plan accepts one more unit, and its produced count wraps to the smallest int |
| LogService.Append | ProductionOrderApi/Services/ProductionLogService.cs:22-51 | the method's result and new state are those of AppendSpec |
| Invariants.QuantitySumAppend | ProductionOrderApi/Services/ProductionLogService.cs:45-48 | appending a log adds its quantity to the total |
| Invariants.LoggedAppend | ProductionOrderApi/Services/ProductionLogService.cs:45-48 | a new log adds to its own order's total and to no other |
| Invariants.ByOrderAfterCascade | ProductionOrderApi/Data/ApplicationDbContext.cs:47-51 | the cascade leaves every other order's logs as they were |
| Invariants.LoggedAfterClear | ProductionOrderApi/Data/ApplicationDbContext.cs:53-57 | set-null leaves every order's logged total as it was |
| Invariants.EmptyKeepsInvariant | ProductionOrderApi/Data/ApplicationDbContext.cs:59-71 | an empty store satisfies both invariants |
| Invariants.BalancedIffNothingUnlogged | ProductionOrderApi/Services/ProductionLogService.cs:45-48 | a store is balanced exactly when no order's count has an unlogged part |
| Invariants.AppendKeepsUnlogged | ProductionOrderApi/Services/ProductionLogService.cs:45-48 | an append, accepted or not, leaves every order's count minus its logged total (mod 2^32) unchanged, whether or not the store was balanced |
| Invariants.DeleteResourceKeepsUnlogged | ProductionOrderApi/Data/ApplicationDbContext.cs:53-57 | deleting a resource leaves every order's unlogged part unchanged |
| Invariants.CreateKeepsInvariant | ProductionOrderApi/Services/ProductionOrderService.cs:48-83 | create keeps order numbers unique and every produced count equal to its logged total |
| Invariants.UpdateKeepsInvariant | ProductionOrderApi/Services/ProductionOrderService.cs:94-139 | update keeps order numbers unique and every produced count equal to its logged total |
| Invariants.AppendedEntry | ProductionOrderApi/Services/ProductionLogService.cs:45-48 | an order's count and its logged total move together when a log is appended |
| Invariants.AppendedBalanced | ProductionOrderApi/Services/ProductionLogService.cs:45-48 | the state after a successful append is balanced |
| Invariants.AppendedUnique | ProductionOrderApi/Services/ProductionLogService.cs:47-48 | the increment keeps order numbers unique |
| Invariants.AppendedInvariant | ProductionOrderApi/Services/ProductionLogService.cs:45-48 | a consistent state after a successful append satisfies both invariants |
| Invariants.AppendKeepsInvariant | ProductionOrderApi/Services/ProductionLogService.cs:22-51 | every append outcome keeps both invariants |
| Invariants.DeleteKeepsInvariant | ProductionOrderApi/Repositories/ProductionOrderRepository.cs:75-84 | deleting an order keeps both invariants |
| Invariants.DeleteResourceKeepsInvariant | ProductionOrderApi/Data/ApplicationDbContext.cs:53-57 | deleting a resource keeps both invariants |
| UpdateDto.HasDateConflict | ProductionOrderApi/Models/UpdateProductionOrderDto.cs:19-26 | false when either date is absent; otherwise true iff the start's day is later than the end's |
| UpdateDto.SameDayNoConflict | ProductionOrderApi/Models/UpdateProductionOrderDto.cs:23 | two timestamps on the same day never conflict |
| UpdateDto.ConflictOrdersTimestamps | ProductionOrderApi/Models/UpdateProductionOrderDto.cs:21-24 | a conflict means both dates are present and the start is strictly later |
| UpdateDto.EmptyHasNoConflict | ProductionOrderApi/Models/UpdateProductionOrderDto.cs:8-17 | the all-absent patch has no conflict |
| Replies.CreateReply | ProductionOrderApi/Controllers/OrdersController.cs:71-90 | success answers with the value; argument errors and invalid operations are 400; a database refusal is 409; anything else is 503 |
| Replies.UpdateReply | ProductionOrderApi/Controllers/OrdersController.cs:135-156 | as CreateReply, except that KeyNotFound is 404 |
| OrdersController.GetOrders | ProductionOrderApi/Controllers/OrdersController.cs:20-32 | every order |
| OrdersController.GetOrder | ProductionOrderApi/Controllers/OrdersController.cs:34-52 | 400 iff the id is not positive; 404 iff it is positive and absent; otherwise the stored order |
| OrdersController.GetOrdersByStatus | ProductionOrderApi/Controllers/OrdersController.cs:159-183 | 400 iff the name is not valid; 404 iff valid but no order matches; otherwise exactly the matching orders, never an empty list |
| OrdersController.GetPossibleStatuses | ProductionOrderApi/Controllers/OrdersController.cs:185-197 | the three status names in order |
| OrdersController.CreateOrderSpec | ProductionOrderApi/Controllers/OrdersController.cs:54-91 | the answer is 200 iff the service accepts the trimmed order |
| OrdersController.BlankCodesRefused | ProductionOrderApi/Controllers/OrdersController.cs:62-70 | an all-blank order number or product code is 400 and changes nothing |
| OrdersController.CreateOrderAnswers | ProductionOrderApi/Controllers/OrdersController.cs:62-70 | a created order has the trimmed codes, the request's quantity and start, a fresh id and zero produced; any other answer leaves the store as it was |
| OrdersController.CreateOrder | ProductionOrderApi/Controllers/OrdersController.cs:54-91 | the method's answer and new state are those of CreateOrderSpec |
| OrdersController.MergeFields | ProductionOrderApi/Controllers/OrdersController.cs:116-132 | number and code change only when supplied non-empty; the other four only when supplied; the id and produced count never change |
| OrdersController.MergeEmpty | ProductionOrderApi/Controllers/OrdersController.cs:116-132 | merging the all-absent patch changes nothing |
| OrdersController.MergeIdempotent | ProductionOrderApi/Controllers/OrdersController.cs:116-132 | merging the same patch twice is merging it once |
| OrdersController.Then | ProductionOrderApi/Controllers/OrdersController.cs:116-132 | composing two patches: a field is supplied iff either supplies it, and the later one wins |
| OrdersController.MergeThen | ProductionOrderApi/Controllers/OrdersController.cs:116-132 | merging two patches one after the other is merging their composition |
| OrdersController.UpdateOrderGuards | ProductionOrderApi/Controllers/OrdersController.cs:96-114 | a non-positive id is 400 first; a date conflict is 400 before the lookup, even for an absent id; then an absent id is 404 |
| OrdersController.UpdateOrderAnswers | ProductionOrderApi/Controllers/OrdersController.cs:93-157 | 200 only for a stored id, and only that row is replaced, keeping its id, its produced count and the logs; any other answer leaves the store as it was |
| OrdersController.StatusOnly | ProductionOrderApi/Controllers/OrdersController.cs:102-108 | the status-only patch the list sends has no date conflict |
| OrdersController.StatusPatchApplies | ProductionOrderApi/Controllers/OrdersController.cs:93-157 | on a valid store a status-only patch with a member status succeeds (for Finalizada, after the start and not on a later day); only that order's status and the rule's end date change |
| OrdersController.UpdateOrder | ProductionOrderApi/Controllers/OrdersController.cs:93-157 | the method's answer and new state are those of UpdateOrderSpec, after a field-by-field merge |
| LogsController.NewLog | ProductionOrderApi/Controllers/ProductionLogsController.cs:33-38 | the log copies the order id, resource id and quantity from the request and is stamped now |
| LogsController.CreateLogGuards | ProductionOrderApi/Controllers/ProductionLogsController.cs:27-31 | a non-positive quantity or order id is 400 with no change, before the service runs |
| LogsController.CreateLogAnswers | ProductionOrderApi/Controllers/ProductionLogsController.cs:19-64 | 200 iff the quantity is positive, the order and any named resource exist, and the order is not overfilled; the log is appended under the next id, stamped now; every refusal is 400 with no change |
| LogsController.CreateProductionLog | ProductionOrderApi/Controllers/ProductionLogsController.cs:19-64 | the method's answer and new state are those of CreateLogSpec |
| LogsController.GetLogs | ProductionOrderApi/Controllers/ProductionLogsController.cs:66-79 | every log |
| LogsController.GetLogsByOrder | ProductionOrderApi/Controllers/ProductionLogsController.cs:81-101 | 400 iff the order id is not positive; 404 iff no log is for that order; otherwise exactly its logs |
| LogsController.GetLog | ProductionOrderApi/Controllers/ProductionLogsController.cs:103-123 | 400 iff the id is not positive; 404 iff no log has it; otherwise the log with that id |
| LogsController.CreatedLogReadable | ProductionOrderApi/Controllers/ProductionLogsController.cs:103-123 | a created log is then read back by its id |
| OrderList.StatusLabel | production-order-vite/src/components/ProductionOrderList.tsx:48-55 | 1, 2 and 3 map to their labels; any other value to "Desconhecido" |
| OrderList.LabelsDistinct | production-order-vite/src/components/ProductionOrderList.tsx:48-55 | the three labels differ from each other and from "Desconhecido" |
| OrderList.NextStatusNumber | production-order-vite/src/components/ProductionOrderList.tsx:57-64 | 1 goes to 2, 2 to 3 and 3 back to 1 (s % 3 + 1); any other value goes to 1 |
| OrderList.CycleOfThree | production-order-vite/src/components/ProductionOrderList.tsx:58-62 | three steps return to the start, and one or two steps never do |
| OrderList.NextIsBijective | production-order-vite/src/components/ProductionOrderList.tsx:58-62 | on 1..3 the step is one-to-one and onto |
| OrderList.NextStatusLabel | production-order-vite/src/components/ProductionOrderList.tsx:66-69 | the label of the next status, never "Desconhecido" |
| OrderList.LowerChar | production-order-vite/src/components/ProductionOrderList.tsx:103 | ASCII capitals and the Latin-1 capitals U+00C0 to U+00DE move up by 32; U+00D7 (the multiplication sign) and every other character stay as they are |
| OrderList.ToLower | production-order-vite/src/components/ProductionOrderList.tsx:103 | lower-cases each character in place, keeping the length |
| OrderList.ToLowerIdempotent | production-order-vite/src/components/ProductionOrderList.tsx:103 | lower-casing twice is lower-casing once |
| OrderList.Includes | production-order-vite/src/components/ProductionOrderList.tsx:103 | true iff the term occurs at some position |
| OrderList.Filtered | production-order-vite/src/components/ProductionOrderList.tsx:102-104 | exactly the orders whose lower-cased number contains the lower-cased term |
| OrderList.FilteredAppend | production-order-vite/src/components/ProductionOrderList.tsx:102-104 | the filter keeps the orders' relative order |
| OrderList.FilteredEmptyTerm | production-order-vite/src/components/ProductionOrderList.tsx:102-104 | an empty term keeps every order |
| OrderList.FilteredIdempotent | production-order-vite/src/components/ProductionOrderList.tsx:102-104 | filtering twice by the same term is filtering once |
| OrderList.Paginated | production-order-vite/src/components/ProductionOrderList.tsx:106-109 | the slice from page·rows, at most rows long, element for element |
| OrderList.PagesArePrefix | production-order-vite/src/components/ProductionOrderList.tsx:106-109 | the first k pages, placed end to end, are a prefix of the list |
| OrderList.OrderOnItsPage | production-order-vite/src/components/ProductionOrderList.tsx:106-109 | every order appears on page i / rows at position i % rows |
| OrderList.LaterPageEmpty | production-order-vite/src/components/ProductionOrderList.tsx:175-179 | without a page reset, raising rows per page until one page holds everything leaves a later page empty |
| OrderList.StatusClick | production-order-vite/src/components/ProductionOrderList.tsx:265-278 | nothing is sent iff the order is updating; otherwise its id and the next status label |
| OrderList.ListState.constructor | production-order-vite/src/components/ProductionOrderList.tsx:42-44 | an empty search, page 0 and 10 rows per page |
| OrderList.ListState.Visible | production-order-vite/src/components/ProductionOrderList.tsx:102-109 | at most rowsPerPage orders, each a matching order of the list |
| OrderList.ListState.ChangePage | production-order-vite/src/components/ProductionOrderList.tsx:111-113 | only the page changes |
| OrderList.ListState.ChangeRowsPerPage | production-order-vite/src/components/ProductionOrderList.tsx:115-120 | the chosen rows per page, with the page reset to 0 |
| OrderList.ListState.SelectRowsPerPage | production-order-vite/src/components/ProductionOrderList.tsx:175-179 | the header selector sets rows per page and keeps the page |
| OrderList.ListState.SetSearchTerm | production-order-vite/src/components/ProductionOrderList.tsx:122-124 | a new search term resets the page to 0 |
| OrderList.FirstPageShown | production-order-vite/src/components/ProductionOrderList.tsx:122-124 | page 0 shows the first matching orders, up to rows per page |
| App.LabelToNumber | production-order-vite/src/App.tsx:55-68 | "Planejada" gives 1, "Em Produção" 2, "Finalizada" 3, and any other text 1 |
| App.LabelRoundTrip | production-order-vite/src/App.tsx:56-68 | the switch undoes the list's label map on 1..3 |
| App.ClickRequestsNextStatus | production-order-vite/src/App.tsx:55-70 | clicking the button requests the next status number |
| App.WithStatus | production-order-vite/src/App.tsx:72-76 | the list keeps its length |
| App.WithStatusChangesOnlyStatus | production-order-vite/src/App.tsx:72-76 | only the matching order's status changes: its other fields and every other order stay |
| App.WithStatusIdempotent | production-order-vite/src/App.tsx:72-76 | applying it twice is applying it once, and an absent id changes nothing |
| App.AppState.constructor | production-order-vite/src/App.tsx:20-30 | no orders and no order being updated |
| App.AppState.BeginStatusUpdate | production-order-vite/src/App.tsx:51-68 | before the call: the order is added to the updating set, the switch gives the number to send, and the list is untouched |
| App.AppState.FinishStatusUpdate | production-order-vite/src/App.tsx:70-87 | after the call: the list is patched only on success, and the order leaves the updating set either way |
| App.AppState.HandleStatusUpdate | production-order-vite/src/App.tsx:51-89 | sends the switch's number; the list changes only on success; the id leaves the updating set, other ids unaffected |
| OrderForm.DigitsOnly | production-order-vite/src/components/ProductionOrderForm.tsx:168-171 | the result is all digits, no longer than the input, and holds exactly the digits that occur in it |
| OrderForm.DigitsOnlyChar | production-order-vite/src/components/ProductionOrderForm.tsx:169 | a single character is kept iff it is a digit |
| OrderForm.DigitsOnlyAppend | production-order-vite/src/components/ProductionOrderForm.tsx:169 | filtering is piecewise: the digits keep their order and multiplicity |
| OrderForm.DigitsOnlyOfDigits | production-order-vite/src/components/ProductionOrderForm.tsx:168-171 | text of digits only is kept as typed |
| OrderForm.DigitsOnlyIdempotent | production-order-vite/src/components/ProductionOrderForm.tsx:168-171 | filtering twice is filtering once |
| OrderForm.DisplayOrderNumber | production-order-vite/src/components/ProductionOrderForm.tsx:150-152 | removes one leading "ORD-" when present; otherwise keeps the number |
| OrderForm.Submitted | production-order-vite/src/components/ProductionOrderForm.tsx:113-116 | the submitted number starts with "ORD-" |
| OrderForm.PrefixRoundTrip | production-order-vite/src/components/ProductionOrderEditForm.tsx:72-151 | stripping undoes the prefix; a prefixed number round-trips; an unprefixed one gains the prefix |
| OrderForm.OptionFor | production-order-vite/src/components/ProductionOrderForm.tsx:76-87 | a known name gets its number and label; an unknown name gets value 1 and itself as label |
| OrderForm.OptionsFor | production-order-vite/src/components/ProductionOrderForm.tsx:76-87 | options map the names one by one |
| OrderForm.ServerNamesGiveFallback | production-order-vite/src/components/ProductionOrderForm.tsx:76-102 | the server's three names give exactly the fallback options, matching the status numbering |
| OrderForm.ParseQuantity | production-order-vite/src/components/ProductionOrderForm.tsx:212-218 | empty or non-numeric text gives 0; otherwise the parsed number |
| OrderForm.ParseQuantityOfDecimal | production-order-vite/src/components/ProductionOrderForm.tsx:212-218 | any integer typed as decimal text reads back unchanged |
| OrderForm.SubmitDisabled | production-order-vite/src/components/ProductionOrderForm.tsx:269-274 | enabled iff nothing is loading and the order number is not empty |
| OrderForm.OrderData | production-order-vite/src/components/ProductionOrderForm.tsx:113-116 | the submitted order carries the form's fields, its number prefixed so that stripping gives the suffix back |
| OrderForm.CreateForm.constructor | production-order-vite/src/components/ProductionOrderForm.tsx:32-38 | the initial form and no options |
| OrderForm.CreateForm.TypeOrderNumber | production-order-vite/src/components/ProductionOrderForm.tsx:168-171 | only the number changes, to the typed digits |
| OrderForm.CreateForm.TypeQuantity | production-order-vite/src/components/ProductionOrderForm.tsx:212-218 | only the quantity changes, to the parsed value |
| OrderForm.CreateForm.LoadStatusOptions | production-order-vite/src/components/ProductionOrderForm.tsx:73-106 | mapped options, or the fallback on failure; an unset status takes the first option's value |
| OrderForm.CreateForm.ResetForm | production-order-vite/src/components/ProductionOrderForm.tsx:135-143 | the form returns to its initial values |
| OrderForm.CreateForm.Submit | production-order-vite/src/components/ProductionOrderForm.tsx:108-133 | sends the form's order data |
| EditForm.DatePart | production-order-vite/src/components/ProductionOrderEditForm.tsx:78 | the date part of an ISO timestamp: the prefix before the first 'T' |
| EditForm.LoadedForm | production-order-vite/src/components/ProductionOrderEditForm.tsx:72-80 | the loaded form has the stripped number, the order's fields and the start's date part |
| EditForm.UpdateDataOf | production-order-vite/src/components/ProductionOrderEditForm.tsx:149-155 | the patch always carries number (prefixed), code, quantity and status, and never an end date |
| EditForm.LoadSubmitRoundTrip | production-order-vite/src/components/ProductionOrderEditForm.tsx:72-155 | loading then submitting resends the order's fields, its number unchanged when prefixed |
| EditForm.SubmitDisabled | production-order-vite/src/components/ProductionOrderEditForm.tsx:328-334 | enabled iff nothing is loading or fetching and the order number is not empty |
| EditForm.EditFormState.constructor | production-order-vite/src/components/ProductionOrderEditForm.tsx:36-54 | the initial form with nothing loaded |
| EditForm.EditFormState.LoadOrder | production-order-vite/src/components/ProductionOrderEditForm.tsx:64-80 | the original order is kept and the form is loaded from it |
| EditForm.EditFormState.LoadStatusOptions | production-order-vite/src/components/ProductionOrderEditForm.tsx:108-140 | mapped options, or the fallback on failure; nothing else changes |
| EditForm.EditFormState.TypeOrderNumber | production-order-vite/src/components/ProductionOrderEditForm.tsx:213-216 | only the number changes, to the typed digits |
| EditForm.EditFormState.TypeQuantity | production-order-vite/src/components/ProductionOrderEditForm.tsx:257-263 | only the quantity changes, to the parsed value |
| EditForm.EditFormState.ResetForm | production-order-vite/src/components/ProductionOrderEditForm.tsx:174-185 | the form, the original order, the products and the options are cleared |
| EditForm.EditFormState.Submit | production-order-vite/src/components/ProductionOrderEditForm.tsx:142-157 | nothing without an order id; otherwise the form's patch |

## Left out

- HTTP transport, `ActionResult` wrapping, status-code numbers, error-message text, logging and JSON options: the controller's answer is the `Reply` value.
- ModelState validation of request bodies: it happens before any modelled code runs.
- Async/await and Entity Framework change tracking are sequential steps. The two saves of a log append, which share no transaction, are one step. Concurrent requests and races are not modelled.
- .NET `Enum.TryParse` accepts more than the three exact names: numeric strings such as "2", names with blanks around them (" Planejada" lists the Planejada orders), and comma-separated lists whose values are OR-ed ("Planejada,EmProducao" parses to 3 and lists the Finalizada orders). The model accepts only the three exact names and answers BadRequest for the rest. `OrderStatus.DecimalIsNoName` marks the numeric case.
- OrderNumber equality is exact string equality; SQL Server collation is not modelled.
- Local time versus UTC: "now" is a tick count passed in.
- `Text.IsWhiteSpace` is the `Char.IsWhiteSpace` set that `string.Trim` uses (U+0009 to U+000D, U+0020, U+0085, U+00A0, U+1680, U+2000 to U+200A, U+2028, U+2029, U+202F, U+205F, U+3000); `Text.Trim` models the trim over exactly that set.
- `toLowerCase` is modelled for ASCII and Latin-1 capitals only.
- `parseInt` is modelled for optional sign and leading digits. Leading white space and radix prefixes are not modelled.
- `toISOString`, `toLocaleDateString` and `new Date`: the ISO start date is a parameter of the edit form's submit. The create form's "today" is a parameter.
- The front end's API calls (`services/api.ts`): a boolean stands for a successful status update. Products and status names arrive as parameters. Loading flags are parameters of the submit-disabled predicates.
- `ProgressBar.tsx`: floating-point percentages.
- `getStatusColor`, `getStatusIcon`, date formatting and all MUI rendering: presentation.
- `DatabaseSeeder.cs` and `Program.cs`: start-up I/O and dependency injection.
- `ProductService.cs`, `ProductRepository.cs` and `ResourceRepository.cs`: the products and resources are the store's tables, read directly.
- OrderRepository.GetByOrderNumber: `FirstOrDefault` without an ordering returns some matching row. The model fixes that row as the one with the least id.
- LogService.AppendSucceeds: states the exact increase only when produced + quantity fits in 32 bits, because the source's addition wraps (see `LogService.OverflowPassesGuard`).
- Invariants.Balanced: the produced count equals the logged total modulo 2^32, not as an unbounded integer, because of the same wrap.
- Invariants.Balanced: holds for a fresh, empty store, not for the seeded database. DatabaseSeeder.cs:114-160, run at start-up from Program.cs:56-68, stores ORD-1001, ORD-1002, ORD-1004 and ORD-1005 with 250, 500, 100 and 300 produced and no logs. For such a store the model proves that appends and resource deletes keep each order's unlogged part (`Invariants.AppendKeepsUnlogged`, `Invariants.DeleteResourceKeepsUnlogged`).
- OrdersController.StatusPatchApplies: requires a finished order's start to be strictly before now. At the very instant of the start, the database refuses the save (see `OrderService.FinishAtStartRefused`).
- CreateProductionLogDto is not part of this model. Its fields are inferred from the logs controller.
- OrdersController.CreateDto: the defaults of CreateProductionOrderDto for omitted fields (Status Planejada, StartDate `DateTime.UtcNow`) are applied by the JSON binder before the controller runs; the model takes every field as given by the request.
- OrderRepository.GetByStatus, OrderService.GetOrdersByStatus and OrdersController.GetOrdersByStatus return the matching orders as a map keyed by id. The source returns a list in the database's query order, which has no ORDER BY; the order of that list is not modelled.
- LogRepository.ByOrder and LogRepository.GetAll return the logs in table order, which is id order. The source queries have no ORDER BY, so the database's row order is assumed to be id order.
