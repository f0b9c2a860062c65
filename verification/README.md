# Orders service — a Dafny model

A model of the order-ingestion and statistics core of a small Django service.
Clients upload batches of orders (each with its line items) for a user. The
service validates a batch, then upserts it in one transaction: an order number
already stored is overwritten and moves to the uploading user, an unknown one is
created, and each submitted order's items are replaced wholesale. It answers
per-user statistics (count, sum and average of order totals). A daily task
stores one snapshot row for yesterday, and a listing returns the newest 30
snapshots.

The database is one value, `Models.Store`:

- users, keyed by username;
- orders, keyed by their globally unique order number;
- the item list of every order;
- daily snapshot rows, keyed by date.

Representation choices:

- Money is integer cents. A decimal column of `d` digits with 2 after the point
  holds exactly the cent amounts below 10^d in absolute value (`Constants.FitsDigits`).
- Time is integer microseconds since the epoch, UTC.
- A day is the inclusive window from its first to its last microsecond.

The modules follow the source files:

| module | models |
|---|---|
| `Constants` | `core/constants.py` |
| `Models` | `orders/models.py`: the four tables, their column bounds, the foreign keys and cascades |
| `Serializers` | the validators of `orders/serializers.py` |
| `Reconciler` | `OrderUploadSerializer.create` |
| `ReconcilerFacts` | what an upload does to the store |
| `Aggregates` | the ORM aggregates `Count`, `Sum` and `Avg` |
| `Views` | the three endpoints of `orders/views.py` |
| `DailyTask` | `orders/tasks.py` |

`Reconciler.Create` follows `create` step by step:

1. get-or-create the user;
2. run the staging loop, `Reconciler.Stage`, whose body is `Reconciler.StageEntry`;
3. bulk-insert the new orders;
4. bulk-update the stored orders;
5. bulk-insert the items.

It is proved to produce the declarative store `Reconciler.Reconciled`, and the
properties of an upload are lemmas about that store.

The bulk insert of new orders can fail, and then nothing of the transaction is
kept. This happens exactly when two batch entries carry the same number and that
number is not stored yet. Validation rules that case out
(`ReconcilerFacts.ValidatedNeverRepeatsNew`), so a validated upload always
succeeds.

Two behaviours of the code shape the model:

- The day window of the daily task is inclusive at both ends, from midnight
  (`datetime.min.time()`) to 23:59:59.999999 (`datetime.max.time()`), as
  orders/tasks.py:27-32 builds it.
- A username must fit 50 characters after surrounding whitespace is removed,
  because the string field trims before its length check.

## Model

| member | source | states |
|---|---|---|
| Constants.FitsWider | core/constants.py:9-14 | a value that fits a narrower decimal column fits every wider one |
| Constants.LargestTotalAmount | core/constants.py:9-10 | the largest total amount is 9 999 999 999.99 (12 digits, 2 of them decimal); one cent more does not fit; a unit is 10^2 cents |
| Models.ValidWithStats | orders/models.py:94-132 | replacing the snapshots of a valid store by rows that fit their columns and sit under their own dates keeps every constraint |
| Models.Valid | orders/models.py:8-132 | the integrity constraints of the store; `ReconcilerFacts.ReconciledValid`, `DailyTask.TaskValid`, `Models.DeleteOrder` and `Models.DeleteUser` prove the operations keep them |
| Models.DeleteOrder | orders/models.py:65-69 | deleting an order removes it and its items (CASCADE): the order and item keys lose exactly that number, and no other order or item list changes; the store stays valid |
| Models.DeleteUser | orders/models.py:29-34 | deleting a user removes exactly that user's orders and their items: the remaining item lists are exactly those of the remaining orders, unchanged; everything else is kept and the store stays valid |
| Serializers.TrimStart | orders/serializers.py:53 | the result is a suffix of the input; everything removed is whitespace; the result does not start with whitespace |
| Serializers.TrimEnd | orders/serializers.py:53 | the result is a prefix of the input; everything removed is whitespace; the result does not end with whitespace |
| Serializers.TrimStartEmpty | orders/serializers.py:53 | trimming the start leaves nothing exactly when every character is whitespace |
| Serializers.Strip | orders/serializers.py:53-59 | str.strip: the result is a contiguous part of the input with only whitespace before and after it; empty exactly when the input is all whitespace; no whitespace at either end |
| Serializers.TrimBothSlice | orders/serializers.py:53-59 | trimming both ends keeps a contiguous part of the input and removes only whitespace on either side |
| Serializers.StripTrimmed | orders/serializers.py:59 | stripping a string without surrounding whitespace returns it unchanged |
| Serializers.StripIdempotent | orders/serializers.py:59 | stripping twice is stripping once |
| Serializers.ValidateUser | orders/serializers.py:50-59 | fails with "empty" exactly when the name is empty or only whitespace; otherwise returns the stripped, non-empty name |
| Serializers.DistinctIffSameSize | orders/serializers.py:72 | a list is as long as the set of its elements exactly when no element repeats; the set is never larger |
| Serializers.ValidateOrders | orders/serializers.py:61-84 | fails on an empty list; otherwise fails exactly when two entries share an order number, whatever else they hold; a valid list is returned unchanged |
| Serializers.HasDuplicateNumbers | orders/serializers.py:71-72 | two entries share an order number; `Serializers.ValidateOrders` proves the length-versus-set-size test of the code decides exactly this |
| Serializers.RecordFits | orders/serializers.py:22-41 | the bounds a trimmed record must meet: column lengths and digits measured on the trimmed text, non-blank NUL-free text; `Serializers.ValidateOrdersField` states it decides acceptance of each trimmed record |
| Serializers.TrimBatchAt | orders/serializers.py:22-41 | each record the `orders` field passes on is the submitted record with its number, status, and every item's sku and name stripped |
| Serializers.TrimItemsAt | orders/serializers.py:22-27 | each item the item serializer passes on is the submitted item with its sku and name stripped |
| Serializers.TrimRecordIdempotent | orders/serializers.py:22-41 | trimming a trimmed record changes nothing |
| Serializers.BlankTextRefused | orders/serializers.py:22-41 | a record whose number, status, or an item's sku or name is only whitespace does not fit once trimmed |
| Serializers.BlankTextRejected | orders/serializers.py:22-84 | such a record makes the whole upload fail, with an `orders` error naming that record |
| Serializers.BlankStatusRejected | orders/serializers.py:22-84 | an order whose status is three spaces is refused |
| Serializers.StrippedDuplicateRejected | orders/serializers.py:22-84 | two orders whose numbers are equal once stripped (" O-1 " and "O-1") make the upload fail with the repeated-numbers error on the orders field, when every record otherwise fits |
| Serializers.ValidatedRecordsTrimmed | orders/serializers.py:22-84 | an accepted upload carries every submitted record trimmed, so the stored number and status are the stripped ones |
| Serializers.ValidUpload | orders/serializers.py:44-84 | a trimmed, non-blank, NUL-free name of at most 50 characters and a non-empty batch of fitting records with distinct numbers; `Serializers.ValidateUpload` proves every accepted upload meets it |
| Serializers.ValidateUserField | orders/serializers.py:47-59 | accepts exactly the names that are not blank and whose stripped form fits 50 characters and holds no NUL character, returning the stripped form; otherwise says which rule failed |
| Serializers.ValidateOrdersField | orders/serializers.py:22-84 | trims every record, then accepts exactly a non-empty batch whose trimmed records all fit (non-blank, NUL-free text within the column bounds) and carry distinct trimmed numbers, returning the trimmed batch; on failure the error is the invalid-records one, naming exactly the failing entries, when any trimmed record fails, else the empty-list error for an empty batch, else the repeated-numbers error (which, like the code's message, does not list the numbers) |
| Serializers.ValidateUpload | orders/serializers.py:44-84 | succeeds exactly when both fields do, with the stripped name and the trimmed orders, and the result satisfies every upload constraint (`Serializers.ValidUpload`); a failure maps exactly the failing fields to their errors |
| Serializers.ValidateOrdersCount | orders/serializers.py:215-221 | refuses exactly a negative count and returns any other unchanged |
| Serializers.ValidateTotalRevenue | orders/serializers.py:223-229 | refuses exactly a negative revenue and returns any other unchanged |
| Reconciler.Numbers | orders/serializers.py:109-111 | the set of the batch's order numbers: every entry's number is in it and nothing else |
| Reconciler.LastWith | orders/serializers.py:127-132 | the entry of the batch whose values a number ends with: a submitted entry with that number |
| Reconciler.LastWithIsLast | orders/serializers.py:123-132 | the entry `LastWith` picks is followed by no entry with the same number: the last entry wins |
| Reconciler.LastWithIndex | orders/serializers.py:123-132 | the position of the picked entry, after which no entry carries the same number |
| Reconciler.ItemsFor | orders/serializers.py:152-157 | no items are queued for a number the batch does not submit |
| Reconciler.ItemsForMembers | orders/serializers.py:143-157 | an item is gathered for a number exactly when some entry with that number carries it |
| Reconciler.ReconciledAt | orders/serializers.py:96-187 | after an upload a number is stored exactly when it was stored or submitted; a submitted number holds its last entry's values owned by the uploader and exactly the items submitted for it; any other number is unchanged |
| Reconciler.Reconciled | orders/serializers.py:86-196 | the store after a successful upload, characterised number by number by `Reconciler.ReconciledAt` and reached by `Reconciler.Create` |
| Reconciler.PlanCreates | orders/serializers.py:136-138 | the rows staged for insertion; `Reconciler.PlanCreatesNumbers` and `Reconciler.PlanCreatesAssigned` state which |
| Reconciler.PlanUpdates | orders/serializers.py:127-132 | the rows staged for update; `Reconciler.PlanUpdatesAssigned` states which |
| Reconciler.PlanItems | orders/serializers.py:143-157 | the item queue; `Reconciler.PlanItemsQueued` states it holds exactly the items submitted for each number, in batch order |
| Reconciler.AssignedIffStaged | orders/serializers.py:162-171 | a staged list assigns a row to a number exactly when it stages that number |
| Reconciler.HasRepeatSnoc | orders/serializers.py:163 | a list extended by one element has a repeat exactly when it had one or the new element was in it |
| Reconciler.BulkCreateOrders | orders/serializers.py:162-163 | the bulk insert; `Reconciler.BulkCreateOrdersSpec` states when it fails and what it adds |
| Reconciler.BulkUpdateOrders | orders/serializers.py:168-171 | the bulk update; `Reconciler.BulkUpdateOrdersSpec` states its effect |
| Reconciler.BulkCreateItems | orders/serializers.py:176-177 | the bulk item insert; `Reconciler.BulkCreateItemsSpec` states its effect |
| Reconciler.BulkCreateOrdersFails | orders/serializers.py:162-163 | the bulk insert fails exactly when a row names a stored number or repeats a number of the insert |
| Reconciler.BulkCreateOrdersAdds | orders/serializers.py:162-163 | a successful bulk insert adds the staged rows and changes no stored row |
| Reconciler.BulkCreateOrdersSpec | orders/serializers.py:162-163 | the bulk insert fails exactly when it clashes, and otherwise adds exactly the staged rows, leaving every stored row as it was |
| Reconciler.BulkUpdateOrdersSpec | orders/serializers.py:168-171 | the bulk update keeps the set of stored numbers and gives each stored number the row last staged for it, if any |
| Reconciler.BulkCreateItemsSpec | orders/serializers.py:176-177 | the bulk item insert appends to every order exactly the items queued for it, in queue order |
| Reconciler.RepeatsNewLast | orders/serializers.py:123-141 | a new number repeated in a batch is repeated before the last entry, or the last entry repeats it |
| Reconciler.RepeatsNewExtend | orders/serializers.py:123-141 | extending a batch keeps its repeated new numbers, and the last entry adds one when it repeats an earlier new number |
| Reconciler.RepeatsNewSnoc | orders/serializers.py:123-141 | a batch repeats a new number exactly when the batch without its last entry does, or the last entry repeats an earlier new number |
| Reconciler.PlanCreatesNumbers | orders/serializers.py:123-141 | the create plan stages only unstored numbers, exactly the submitted ones not stored, and repeats a number exactly when the batch repeats a new number |
| Reconciler.PlanCreatesAssigned | orders/serializers.py:136-138 | every submitted number not stored is planned for insertion with its last entry's values, owned by the uploader; no other number is |
| Reconciler.PlanUpdatesAssigned | orders/serializers.py:127-132 | every submitted number already stored is planned for update with its last entry's values, owned by the uploader; no other number is |
| Reconciler.PlanSizes | orders/serializers.py:127-141 | every entry is planned once, as a create or as an update |
| Reconciler.QueuedForAppend | orders/serializers.py:157 | the items queued for a number by two queues in turn are those of the first followed by those of the second |
| Reconciler.QueuedForOne | orders/serializers.py:152-157 | one order queues all its items for its own number and none for another |
| Reconciler.PlanItemsQueued | orders/serializers.py:143-157 | the item queue holds, for every number, exactly the items submitted for it, in batch order |
| Reconciler.PlanItemsCount | orders/serializers.py:152-186 | the item queue holds every submitted item, so created_items is the total number of submitted items |
| Reconciler.CommitOrders | orders/serializers.py:162-171 | without a repeated new number the bulk insert succeeds, and insert then update leave every order as the reconciled store has it |
| Reconciler.CommitItems | orders/serializers.py:143-177 | after the deletions, the bulk item insert leaves every order's items as the reconciled store has them |
| Reconciler.CreatePlanClashes | orders/serializers.py:162-163 | the insert of new orders fails exactly when a number not stored yet repeats in the batch |
| Reconciler.CreatedCount | orders/serializers.py:184 | without a repeated new number, created_orders is the number of distinct submitted numbers not stored yet |
| Reconciler.ExistingOrders | orders/serializers.py:112-117 | the lookup holds a submitted number exactly when it is stored, with its stored row, and holds no number outside the batch |
| Reconciler.ClearedItems | orders/serializers.py:143-145 | after the per-order deletions every submitted number has no items and every other order keeps its items |
| Reconciler.StageEntry | orders/serializers.py:124-160 | one pass of the loop: an entry is staged as an update when stored and as a create otherwise, its stored items are deleted, and its items are queued |
| Reconciler.Stage | orders/serializers.py:105-160 | the loop produces exactly the create plan, the update plan, the item queue and the cleared items of the whole batch |
| Reconciler.Create | orders/serializers.py:86-196 | the transaction fails exactly when a new number repeats in the batch; otherwise the store becomes the reconciled store, created_orders counts the distinct new numbers, created plus updated is the batch length, and created_items is the total number of submitted items |
| ReconcilerFacts.LastWithDistinct | orders/serializers.py:123-132 | in a batch without repeated numbers, an entry's values are the ones its number ends with |
| ReconcilerFacts.ItemsForDistinct | orders/serializers.py:143-157 | in a batch without repeated numbers, the items submitted for an entry's number are that entry's items |
| ReconcilerFacts.ReconciledEntry | orders/serializers.py:127-177 | after a validated upload each submitted order holds the submitted created_at, total_amount and status, belongs to the uploader, and has exactly the submitted items |
| ReconcilerFacts.ReconciledFrame | orders/serializers.py:97-157 | the uploader is the only user added (an existing one is reused); the snapshots are untouched; every order outside the batch keeps its row and items |
| ReconcilerFacts.ReconciledRepeatedEntry | orders/serializers.py:127-157 | for a number the batch repeats, the stored row carries the values of an entry with that number that no later entry repeats (last wins), and the stored items are exactly those of all its entries |
| ReconcilerFacts.ItemsForFit | orders/serializers.py:22-27 | items that each fit their columns still fit when gathered for one number |
| ReconcilerFacts.ReconciledValid | orders/serializers.py:86-196 | an upload of fitting records for a fitting username keeps every constraint of the store |
| ReconcilerFacts.ValidatedNeverRepeatsNew | orders/serializers.py:71-78 | a batch that passed the duplicate check never makes the bulk insert store a number twice |
| ReconcilerFacts.ResubmitIsIdempotent | orders/serializers.py:109-141 | after an upload every submitted number is stored, so resubmitting the batch creates nothing and leaves the store unchanged |
| Aggregates.SumTotals | orders/views.py:93 | Sum('total_amount') over a set of orders; the lemmas below state its algebra |
| Aggregates.SumTotalsRemove | orders/views.py:93 | the sum of totals does not depend on the order of summation |
| Aggregates.SumTotalsSingleton | orders/views.py:93 | the sum over one order is its total |
| Aggregates.SumTotalsAgree | orders/views.py:93 | two stores with the same totals on a set of orders have the same sum over it |
| Aggregates.SumTotalsUnion | orders/views.py:93 | the sum over two disjoint sets of orders is the sum of their sums |
| Aggregates.SumTotalsBounds | orders/views.py:93 | totals within [lo, hi] give a sum within [count * lo, count * hi] |
| Aggregates.SumTotalsNonNegative | orders/views.py:93-100 | non-negative totals have a non-negative sum |
| Aggregates.Mean | orders/views.py:94-101 | the average is 0 for no orders and otherwise within one cent below the exact mean |
| Aggregates.MeanBetween | orders/views.py:94 | the average lies between the smallest and the largest total averaged |
| Aggregates.Owners | orders/tasks.py:42-44 | the distinct owners of a set of orders; `Aggregates.OwnersBound` bounds its size |
| Aggregates.OwnersBound | orders/tasks.py:42-44 | a set of orders has no more distinct owners than orders |
| Views.UploadOrders | orders/views.py:45-65 | an upload is rejected exactly when validation fails, with its error map and the store untouched; otherwise the store becomes the one reconciled from the trimmed batch, stays valid, and the counts are those of create |
| Views.OwnedBy | orders/views.py:91 | the orders counted for a user are stored orders |
| Views.UserStatsView | orders/views.py:68-113 | a missing or blank parameter is a bad request; a stripped name with no user row is not found, naming that user; a known user whose revenue or average outgrows the 12-digit serializer fields gets a server error; otherwise the answer carries the stripped name, the number of the user's orders and figures that fit |
| Views.FiguresFitIffRevenueFits | orders/serializers.py:206-213 | in a valid store the statistics fail to render exactly when the user's revenue outgrows 12 digits; the average always fits |
| Views.UserStatsFigures | orders/views.py:91-102 | the reported revenue is the sum of the user's totals and the average is their mean |
| Views.UserStatsNoOrders | orders/views.py:99-101 | a known user without orders gets all-zero statistics, never not-found |
| Views.UserStatsAverageBetween | orders/views.py:91-102 | the reported revenue is the sum of the user's totals and the average lies between their smallest and largest total |
| Views.UserStatsPassValidators | orders/serializers.py:215-229 | the reported count always passes the count validator, and the revenue passes the revenue validator when the totals are not negative |
| Views.OwnershipAfterUpload | orders/serializers.py:127-132 | after an upload the uploader owns every submitted order besides their earlier ones; every other user keeps exactly their orders outside the batch, with the same revenue over them |
| Views.FirstUploadStore | orders/serializers.py:96-187 | a first upload of one order into an empty store stores that order, owned by the uploader, and the uploader |
| Views.SingleOrderStats | orders/views.py:68-113 | a user whose only order totals 100.00 gets one order, 100.00 revenue and 100.00 average |
| Views.FirstUploadStats | orders/views.py:68-113 | after alice's first upload of one order of 100.00, the statistics for " alice " are one order, 100.00 revenue and 100.00 average |
| Views.MaxDate | orders/views.py:122 | the greatest date of a non-empty set |
| Views.NewestDates | orders/views.py:122 | at most `limit` dates, all of them when fewer, strictly decreasing, and every date at least as new as a listed one is listed |
| Views.DailyStatsListing | orders/views.py:120-124 | the listing holds at most 30 rows |
| Views.DailyStatsListingNewest | orders/views.py:120-124 | the listing holds min(30, stored) stored rows, strictly newest date first, and every stored row at least as new as a listed one is listed |
| DailyTask.DayOf | orders/tasks.py:18 | the day of an instant is the day whose window holds it |
| DailyTask.WindowStart | orders/tasks.py:27-29 | the first microsecond of a day; `DailyTask.InWindowIff` characterises the window |
| DailyTask.WindowEnd | orders/tasks.py:30-32 | the last microsecond of a day, 23:59:59.999999; `DailyTask.InWindowIff` characterises the window |
| DailyTask.InWindow | orders/tasks.py:34-35 | the inclusive range filter; `DailyTask.InWindowIff` states it holds exactly the instants of that day |
| DailyTask.InWindowIff | orders/tasks.py:27-35 | an instant lies in a day's inclusive window exactly when it falls on that day |
| DailyTask.TargetDate | orders/tasks.py:18 | the target date is the day before the current day; its window ends before now, and now is at most one day after the window ends |
| DailyTask.WindowOrders | orders/tasks.py:34-36 | the window's orders are stored orders |
| DailyTask.ActiveUsers | orders/tasks.py:42-44 | the distinct owners of the window's orders; `DailyTask.SnapshotRow` states there are never more of them than orders |
| DailyTask.SnapshotRow | orders/tasks.py:34-52 | the row carries the target date and the insertion time, never counts more active users than orders, and is all zero for an empty window |
| DailyTask.DailyOrderStatsTask | orders/tasks.py:18-67 | a run reports the target date and changes no user, order or item |
| DailyTask.TaskEffect | orders/tasks.py:23-52 | a row is inserted exactly when none exists for yesterday and the computed row fits; it is then the only change; otherwise the store is unchanged and "already exists" is reported exactly when the row existed |
| DailyTask.TaskIdempotent | orders/tasks.py:23-52 | after a run that did not fail, a later run for the same date finds the row and changes nothing, so the date holds one row |
| DailyTask.TaskValid | orders/tasks.py:46-52 | a run keeps every constraint of the store |
| DailyTask.SnapshotCountsDay | orders/tasks.py:27-40 | an order is counted exactly when it was created on the day before the current one |
| DailyTask.LargeOrderFailsTask | orders/tasks.py:46-67 | one order of 100 000 000.00, which fits its own column, makes the daily job fail and store nothing, because the average does not fit its 10-digit column (under the assumption that the database refuses such a value) |

## Left out

- Logging: every `logger` call is left out; none affects a result.
- Concurrency: the get-or-create race on usernames, the check-then-insert race of the daily task and concurrent uploads to one order number are left out. A transaction is one sequential, all-or-nothing step.
- Field parsing: ISO-8601 timestamps and decimal strings are left out. A submitted order arrives with them already parsed, as `Serializers.OrderData`; its string fields arrive as submitted and are trimmed by the model.
- Serializers.ValidateUserField: a blank name is refused by the string field itself (not blank allowed) before `validate_user` runs. The model reports it as the empty-name error; both are a 400 on the `user` field. A name that is both too long and holds a NUL character gets both messages from the string field; the model reports only the length error.
- Serializers.ValidateOrdersField: an invalid-records error names the failing entries, not which of their fields failed or with what message.
- The filter at orders/serializers.py:143 on a not-yet-saved order is modelled as deleting nothing, because such an order has no stored items.
- Primary keys and the mechanics of `bulk_create` and `bulk_update` are not modelled; rows are identified by their unique column.
- Time zones: the service runs in UTC, so a day is a fixed window of microseconds and `make_aware` is the identity. The clock is the parameter `now`.
- Aggregates.Mean: `Avg` yields an exact decimal that the columns and serializers round to two places. The model rounds down to whole cents and states only that the result is within one cent of the exact mean.
- DailyTask.DailyOrderStatsTask: the only insert failure modelled is a sum or average that does not fit its column digits, and that failure is an assumption of the model: it holds for a database that enforces decimal precision, while SQLite stores such a row unchecked. Other database errors are out of the model; every failure leaves the store unchanged.
- Models.ItemFits: the quantity column's database upper bound is not modelled; only its lower bound of 0 is.
- Views.UserStatsView: the statistics serializer is built from the computed figures and its validators never run on that path. `Views.UserStatsPassValidators` states only that the figures would pass them.
- The serializer of the daily listing, `DailyStatsSerializer`, is imported by orders/views.py but is not part of this model; the listing returns the rows themselves.
- Views.DailyStatsListingNewest: it requires every snapshot is stored under its own date, which `Models.Valid` guarantees.
- The admin screens, settings and URL routing are configuration without behaviour.
- Rendering of the HTTP responses and their messages is out of the model. A response is the datatype of its status and payload.
