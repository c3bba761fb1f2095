# A verified model of the shop's orders, baskets, stock and price lists

The shop is a Django application in which suppliers load price lists, buyers fill a basket,
place it as an order against the suppliers' stock, and may cancel the order again. This project
models its database as one relational store, the requests and the import task as steps on it, and
proves what these steps promise, for every database and every run of steps.

## How the model is built

* `Tables.dfy` has one row datatype per model class, the database as a value (`Store`), and the
  invariant `Valid`: numbering, foreign keys, unique (order, offer), at most one basket per user,
  natural keys of shops, products, parameters and offers, contact ownership, no negative stock.
* `Queries.dfy`, `Baskets.dfy`, `Orders.dfy`, `Contacts.dfy` and `Imports.dfy` say what each request
  does as functions from store to store. `Sums.dfy` has the sums over order items.
* `Database.dfy` has the tables as fields of a class and the view methods and the import task as
  methods with the source's loops, errors, early exits, saves and roll-backs; every method is
  proved equal to its function. `Handle` ties them to the steps of `Runs.dfy`.
* `BatchAdd`, `BatchUpdate`, `Requests`, `Competing`, `Totals`, `ImportStages`, `ImportOffers`,
  `ImportTheorems`, `Runs`, `Evolution` and `Ownership` prove the theorems; `AddOutcome`,
  `UpdateOutcome` and `ImportOutcome` say what a request leaves and answers when part of it is
  refused; `Witnesses` has the runs that show where a plain statement fails.

An *offer* is a row of `ProductInfo` (one shop's price and stock of a product). `Held(o, p)` is what
order `o` holds of offer `p`; `Committed(p)` is what all orders in state `new` hold of it; the ledger
of `p` is its stock plus `Committed(p)`.

Each request is one serial step. The three uses of `transaction.atomic` are modelled by a fault
parameter that lets an exception take the place of any write, of the notification or of the
aggregate for the reply; the requests without a transaction keep what they wrote before an error.
Rows of one table are visited in id order; the results proved (pointwise stock maps, sums) do not
depend on it. The form of placement that names no basket keeps, like the source with its prefetched
items, the stocks it read in the availability check and writes from those. A list that a basket
request carries counts as absent when it arrives parsed and is empty; JSON text never does.

Two database constraints are preconditions of the methods that write (`SaveStock`: stock is not
negative; `SaveItem`: no second row for one order and offer), so that the proof of each caller shows
that the constraint never fires and that the handler of the integrity error in the add request is
never reached.

Taken as given of the database: automatic ids grow and are never reused, foreign keys are checked
when a get-or-create commits, and deletions cascade as the models declare. The import exists in
three copies (`import_data` and the two synchronous methods of `PartnerUpdate`) that differ only in
their replies; one method models them.

## Where the code falls short of a plain statement

Four plain statements are false of the code. `Witnesses.dfy` shows each at the end of a run from the
empty database, and a theorem says exactly when the statement holds.

* "A basket update keeps the cached total right." `FailedUpdateCanLeaveStaleTotal` has the input: take
  an item out, then name one that is not in the basket. `UpdateKeepsTotalIff` and `PutIsExact` have
  the condition on the list: no entry removes something of value without a later entry being saved.
* "An import keeps the cached totals right." It removes order items without refreshing totals
  (`ImportCanLeaveWrongTotal`, an import that succeeds). Over all steps, `TotalsStayRightIff` says
  exactly when correct totals stay correct.
* "Every step keeps the ledger of an offer." Deleting a contact deletes its orders without restocking
  (`DeletingContactsLosesStock`). `LedgerKeptIff` says exactly which steps keep the ledger, and
  `StockIsConserved` accounts for exactly what the others lose.
* "An import that fails keeps the old offers." It has already dropped them
  (`AbortedImportCanDropOffers`). `ImportKeepsOffersIff` says exactly when an import keeps them,
  `AbortedImportLeavesPrefix` what a failed one leaves instead.

## Model

| member | source | states |
|---|---|---|
| `Evolution.StockIsConserved` | reference/netology_pd_diplom/backend/views.py:1036-1061 | over every run of any steps, for each offer that survives it, stock plus the quantity in `new` orders is what it was, less exactly what contact deletions took along |
| `Evolution.NeverOversold` | reference/netology_pd_diplom/backend/views.py:1117-1142 | over every run stock stays non-negative and all `new` orders together hold at most what there was; the balance is exact when no contact is deleted |
| `Runs.StepLedger` | reference/netology_pd_diplom/backend/views.py:1244-1251 | each single step keeps the ledger of a surviving offer, up to what a contact deletion loses |
| `Runs.LedgerKeptIff` | reference/netology_pd_diplom/backend/models.py:247-249 | a step keeps the ledger of a surviving offer exactly when it does not delete a contact on which a `new` order with pieces of the offer hangs |
| `Contacts.CascadeLosesLedger` | reference/netology_pd_diplom/backend/models.py:247-249 | the cascade of a contact deletion takes from the ledger exactly the quantities of the deleted `new` orders |
| `Witnesses.DeletingContactsLosesStock` | reference/netology_pd_diplom/backend/models.py:247-249 | after a run from the empty database, a contact deletion takes two of three pieces off the ledger |
| `Competing.CompetingPlacements` | reference/netology_pd_diplom/backend/views.py:1036-1056 | placements of distinct baskets one after the other all succeed exactly when every offer's summed demand is in stock, and end in the simultaneous settlement |
| `Competing.PlacementsInAnyOrder` | reference/netology_pd_diplom/backend/views.py:1036-1061 | any reordering of competing placements succeeds alike and ends in the same whole database |
| `Orders.CheckIsExact` | reference/netology_pd_diplom/backend/views.py:1036-1051 | the per-item availability check passes exactly when the whole order's quantity of every offer is in stock |
| `Orders.CheckNeedsUniqueItems` | reference/netology_pd_diplom/backend/models.py:303-305 | without unique (order, offer) the check can pass and the deduction still go below zero |
| `Orders.CheckoutAnswers` | reference/netology_pd_diplom/backend/views.py:1017-1086 | what the atomic block answers for the caller's basket: no items, not the caller's contact, or not enough in stock, in this order, each exactly then and with nothing changed; a refusal for lack of stock lists exactly the items that ask for more than there is, with what was asked and what there is, and no offer twice |
| `Orders.NamedPlacementAnswers` | reference/netology_pd_diplom/backend/views.py:1012-1086 | the same for the request that names a basket; an id that is no number and an id that is not the caller's basket have their own answers |
| `Orders.OwnPlacementAnswers` | reference/netology_pd_diplom/backend/views.py:1096-1160 | the same for the request that names no basket: it is about the caller's one basket, and without one it is answered like an empty one |
| `Orders.PlacementIsExact` | reference/netology_pd_diplom/backend/views.py:1017-1086 | exactly when a basket is placed, all it changes, the reported total, and which refusal is answered when, with nothing changed |
| `Orders.CancelUndoesPlacement` | reference/netology_pd_diplom/backend/views.py:1244-1251 | cancelling right after placing gives back the database but for the order's contact and state |
| `Orders.BothFormsAgree` | reference/netology_pd_diplom/backend/views.py:1100-1142 | placement with the basket's id and placement by contact alone accept the same requests with the same result; no other id is accepted |
| `Totals.OrderStepsKeepTotals` | reference/netology_pd_diplom/backend/views.py:1059-1061 | placing, re-addressing and cancelling, in any form, carry the cached total and the sum of every order unchanged, whatever they were |
| `Evolution.StepMovesPhase` | reference/netology_pd_diplom/backend/views.py:1060 | one step moves an order basket to new, new to canceled, or not at all, and new orders are baskets |
| `Evolution.RunEvolves` | reference/netology_pd_diplom/backend/views.py:1236-1251 | over every run phases only advance, users stay, ids are never reused, and items of an order that left the basket never change while order and offer exist |
| `Evolution.DeductedAndRestockedOnce` | reference/netology_pd_diplom/backend/views.py:1053-1061 | over every run an order is deducted at most once and restocked at most once, and only afterwards |
| `Evolution.StockMovesOnlyWithOrders` | reference/netology_pd_diplom/backend/views.py:1244-1247 | stock moves only when an order is deducted or restocked, and by exactly what that order holds |
| `Evolution.PlaceThenCancelIsNeutral` | reference/netology_pd_diplom/backend/views.py:1053-1061 | placing and later cancelling an order, with any steps between, has net stock effect zero |
| `Evolution.LaterOffersAreUntouched` | reference/netology_pd_diplom/backend/celery_tasks.py:76-90 | an order placed before a re-import never holds anything of the re-imported offers, and cancelling it adds nothing to their stock |
| `Runs.ReachableIsValid` | reference/netology_pd_diplom/backend/models.py:292-305 | every database reachable from the empty one by the modelled steps satisfies all foreign keys, uniqueness rules, contact ownership (orders with a contact are exactly those that left the basket) and non-negative stock |
| `Runs.RunKeepsValid` | reference/netology_pd_diplom/backend/models.py:247-249 | the same from any valid database, through every cascade |
| `BatchAdd.BatchAddIsExact` | reference/netology_pd_diplom/backend/views.py:375-433 | a batch add reports no error exactly when, for every listed product, the basket's quantity plus all listed is at most its stock; the basket is then the pointwise sum |
| `BatchAdd.BatchAddIgnoresOrder` | reference/netology_pd_diplom/backend/views.py:375-413 | permuting the list changes neither acceptance, quantities nor price |
| `BatchAdd.BatchAddMergesDuplicates` | reference/netology_pd_diplom/backend/views.py:391-406 | two entries for one product do what one entry with their sum does: acceptance, quantities and price |
| `BatchAdd.OutcomeDependsOnQuantities` | reference/netology_pd_diplom/backend/views.py:391-413 | lists that agree on which products they name and how much of each are accepted alike and leave the same quantities and price |
| `BatchAdd.ErrorsAreTruthful` | reference/netology_pd_diplom/backend/views.py:386-404 | every error of a batch add names a listed product with its true stock, exceeded by the request |
| `BatchAdd.AddAllKeeps` | reference/netology_pd_diplom/backend/views.py:391-413 | any batch keeps (order, offer) unique and edits only the basket; one that saved anything leaves the cached total right, one that saved nothing changed nothing |
| `AddOutcome.AddAllIsExact` | reference/netology_pd_diplom/backend/views.py:375-433 | for any list, refused entries included: every offer is decided on its own, its entries one after the other being added when there is room; no item goes; the errors are exactly those of the refused entries, in order, with the true figures |
| `BatchUpdate.BatchUpdateIsExact` | reference/netology_pd_diplom/backend/views.py:513-549 | a batch update reports no error exactly when every id is in the basket, within stock and not listed after its removal; each listed item then holds its last quantity or is gone, others are untouched |
| `UpdateOutcome.UpdateAllIsExact` | reference/netology_pd_diplom/backend/views.py:513-541 | for any list, refused entries included: an item is gone exactly when an entry that meets it removes it and has the quantity last saved for it otherwise; the errors are exactly those of the refused entries, in order |
| `BatchUpdate.UpdateKeepsTotalIff` | reference/netology_pd_diplom/backend/views.py:528-543 | from a right total, or when anything is saved, the update loop ends with a right total exactly when no entry of the list removes something of value without a later one being saved |
| `BatchUpdate.UpdateSavesIff` | reference/netology_pd_diplom/backend/views.py:528-537 | the loop saves something exactly when some entry names an item still in the basket with a positive quantity within stock |
| `BatchUpdate.ForgottenIff` | reference/netology_pd_diplom/backend/views.py:528-534 | the value deleted after the last save, which the replay of the loop measures, is positive exactly for the lists with such an entry |
| `BatchUpdate.UpdateDrift` | reference/netology_pd_diplom/backend/views.py:528-534 | how far the cached total is off after the loop, for any total before it |
| `Witnesses.FailedUpdateCanLeaveStaleTotal` | reference/netology_pd_diplom/backend/views.py:539-543 | after a run from the empty database, a failing update leaves a wrong total where it was right |
| `Baskets.OpenBasketIsExact` | reference/netology_pd_diplom/backend/views.py:371 | opening the basket finds the caller's one basket and changes nothing, or adds exactly one empty basket row under the next id |
| `Requests.PostIsExact` | reference/netology_pd_diplom/backend/views.py:351-435 | the add request as a whole, relative to the database before it: nothing without a list; otherwise no order but the caller's basket changes row or items, each offer's row and the errors are exactly what the list makes of them, when it succeeds, the pointwise sum then, and the cached total after success and failure |
| `Requests.PutIsExact` | reference/netology_pd_diplom/backend/views.py:489-549 | the update request as a whole, relative to the database before it: nothing without a list; otherwise no order but the caller's basket changes row or items, the items, the count and the errors are exactly what the list makes of them, when it succeeds, and the cached total after success and failure: too high exactly when something of value was removed after the last save |
| `Requests.PutErrorsAreExact` | reference/netology_pd_diplom/backend/views.py:517-541 | an error of a failed update says that an item is not in the basket exactly when an entry names one that is not, or no longer, there; that there is not enough exactly when an entry asks for more than the stock it reports; nothing else is reported |
| `Requests.DeleteIsExact` | reference/netology_pd_diplom/backend/views.py:449-471 | the delete request as a whole: nothing without a list; otherwise no order but the caller's basket changes, exactly its listed items go, and their number and a correct total result; a list without an id removes nothing |
| `Queries.FoldIsExact` | reference/netology_pd_diplom/backend/views.py:453-462 | the folded filter selects exactly the owner's listed rows; the match-everything filter remains exactly when the flag is not set |
| `Queries.NumberReadsDecimal` | reference/netology_pd_diplom/backend/views.py:456-458 | the decimal text of an id passes the digit check and reads back as that id |
| `Contacts.DeletionCount` | reference/netology_pd_diplom/backend/views.py:893-894 | the reported count is that of the contacts, their orders and the items of those |
| `Contacts.ContactDeletionIsExact` | reference/netology_pd_diplom/backend/views.py:882-894 | the request deletes exactly the caller's listed contacts with what hangs on them, and nothing for a list without an id |
| `Contacts.CascadeSparesTheRest` | reference/netology_pd_diplom/backend/models.py:247-249 | of contacts, orders and items exactly the rows hanging on a deleted contact go; all else, stock included, stays |
| `Contacts.FaultsAreExact` | reference/netology_pd_diplom/backend/views.py:860-871 | a contact form is accepted exactly when no required field is blank and none is too long, and a refusal names exactly the offending fields |
| `Runs.ReachableContactsFit` | reference/netology_pd_diplom/backend/models.py:224-230 | in every reachable database every contact row keeps within its columns: what the form checks is what the table allows, and no other step writes a contact |
| `Totals.TotalsStayRightIff` | reference/netology_pd_diplom/backend/models.py:263-268 | from correct totals, a step leaves all totals correct exactly when it is neither an update whose list cannot be applied as a whole and removes something of value after its last save, nor a feed, acceptable up to its goods, of a supplier with priced items in some order |
| `Witnesses.ImportCanLeaveWrongTotal` | reference/netology_pd_diplom/backend/celery_tasks.py:76-77 | after a run from the empty database, a successful import leaves the total of a basket wrong |
| `Totals.SqlSumIsSum` | reference/netology_pd_diplom/backend/views.py:560-564 | the SQL aggregate with `or 0` is the Python sum, also over no items |
| `Totals.EmailLinesAddUp` | reference/netology_pd_diplom/backend/celery_tasks.py:170-177 | the amounts of the e-mail lines add up to the order's sum |
| `Totals.EmailHasEveryLine` | reference/netology_pd_diplom/backend/celery_tasks.py:167-177 | an order e-mail has exactly one line for each item of the order, in order, with its quantity, its price and its amount |
| `Totals.SupplierTotalsAddUp` | reference/netology_pd_diplom/backend/views.py:827-831 | the per-supplier totals of an order add up to its total |
| `ImportTheorems.ImportSucceedsIff` | reference/netology_pd_diplom/backend/celery_tasks.py:68-97 | exactly which feeds are imported without error |
| `ImportOutcome.ImportIsExact` | reference/netology_pd_diplom/backend/celery_tasks.py:64-102 | every import ends in one of four ways, each exactly characterised: refused for the shop with nothing written; refused at a category with exactly the shop and the categories and links before it written and no offer touched; refused at a good with exactly the goods before it loaded; or done. Every row of the catalogue tables, the offers and the reply are given in each |
| `ImportOutcome.RefusedCategoryLeavesPrefix` | reference/netology_pd_diplom/backend/celery_tasks.py:68-74 | an import refused at a category leaves the shop, and exactly the categories before the refused one and their links; products, parameters, offers and sales are untouched |
| `ImportOutcome.RefusedGoodIsShorterImport` | reference/netology_pd_diplom/backend/celery_tasks.py:79-97 | an import refused at a good ends in the very database that importing only the goods before it would give |
| `ImportTheorems.ImportReplacesCatalogue` | reference/netology_pd_diplom/backend/celery_tasks.py:76-102 | a successful import makes the shop's offers, with their parameters, correspond one to one to the goods, reports both lengths, and leaves all else |
| `ImportTheorems.ImportedCategories` | reference/netology_pd_diplom/backend/celery_tasks.py:71-74 | the listed categories exist under their names and are linked to the shop |
| `ImportTheorems.ImportLeavesOthers` | reference/netology_pd_diplom/backend/celery_tasks.py:76-77 | however the import ends, other shops' offers and the order items on them are untouched |
| `ImportTheorems.AbortedImportLeavesPrefix` | reference/netology_pd_diplom/backend/celery_tasks.py:79-97 | an import whose shop and categories are acceptable and whose goods are not fails, and leaves the shop with exactly the goods before the first refused one: those are importable, with that one they are not |
| `ImportTheorems.ImportKeepsOffersIff` | reference/netology_pd_diplom/backend/celery_tasks.py:64-77 | an import, failing or not, keeps every old offer exactly when it is refused at the shop or a category or the user sells nothing; otherwise exactly the user's own offers and the items on them go |
| `Witnesses.AbortedImportCanDropOffers` | reference/netology_pd_diplom/backend/celery_tasks.py:76-91 | after a run from the empty database, a failing import drops an offer and the item on it in a basket |
| `ImportTheorems.ImportIsIdempotent` | reference/netology_pd_diplom/backend/celery_tasks.py:64-102 | the same feed again succeeds, changes no shop, category, link, product or parameter, and yields the same offers and values under fresh ids |
| `ImportTheorems.ImportKeepsValid` | reference/netology_pd_diplom/backend/celery_tasks.py:81-97 | however the import ends, natural keys stay unique and all references hold |
| `ImportStages.ValuesStage` | reference/netology_pd_diplom/backend/celery_tasks.py:93-97 | distinct mapping keys never violate the (offer, parameter) constraint, and the offer then has exactly the pairs of the mapping |
| `ImportStages.CategoriesStage` | reference/netology_pd_diplom/backend/views.py:668-671 | the category stage fails exactly on an id with two names, and adds and links exactly the listed ids |
| `ImportOffers.GoodsStage` | reference/netology_pd_diplom/backend/views.py:676-692 | the goods stage succeeds exactly when every category is known and no (product, shop, external id) repeats; the k-th new offer is the k-th good |
| `Ownership.RunKeepsOthers` | reference/netology_pd_diplom/backend/views.py:1193-1204 | over every run of other users' basket, order, contact add and contact delete requests, a user's orders, items and contacts are unchanged |
| `Ownership.StepKeepsOthers` | reference/netology_pd_diplom/backend/views.py:882-893 | the same for one step, cascades included |
| `Ownership.ImportKeepsOrders` | reference/netology_pd_diplom/backend/celery_tasks.py:76-77 | an import changes no order or contact and removes only items on the replaced shop's offers |
| `Databases.Database.CalculateTotalPrice` | reference/netology_pd_diplom/backend/models.py:263-268 | the loop stores and returns the sum of the order's items |
| `Databases.Database.SaveItem` | reference/netology_pd_diplom/backend/models.py:311-315 | writes the row and refreshes the total; callers never break (order, offer) uniqueness |
| `Databases.Database.UpdateBasketTotal` | reference/netology_pd_diplom/backend/views.py:553-569 | the aggregate refreshes the total like the Python sum |
| `Databases.Database.EmailTotal` | reference/netology_pd_diplom/backend/celery_tasks.py:167-177 | the e-mail loop returns one line for each item, with its figures, and the order's sum, which is the sum of the lines |
| `Databases.Database.SupplierTotal` | reference/netology_pd_diplom/backend/views.py:827-831 | the aggregate over one supplier's items |
| `Databases.Database.BasketPost` | reference/netology_pd_diplom/backend/views.py:351-435 | the batch loop equals its specification, and does and answers exactly what the add request is stated to, errors and partial application included |
| `Databases.Database.BasketPut` | reference/netology_pd_diplom/backend/views.py:489-549 | likewise for the update loop |
| `Databases.Database.BasketDelete` | reference/netology_pd_diplom/backend/views.py:449-471 | likewise for deletion by a folded filter; without a list nothing happens |
| `Databases.Database.DeductFresh` | reference/netology_pd_diplom/backend/views.py:1053-1056 | the read-modify-write loop equals one pointwise update of the stock map, and never writes a negative stock |
| `Databases.Database.DeductCached` | reference/netology_pd_diplom/backend/views.py:1134-1137 | the same for the loop that writes from stocks read before it, given unique (order, offer) |
| `Databases.Database.Restock` | reference/netology_pd_diplom/backend/views.py:1244-1247 | the restocking loop equals one pointwise update |
| `Databases.Database.OrderPostById` | reference/netology_pd_diplom/backend/views.py:1012-1093 | all or nothing: an exception at any write, at the notification or at the aggregate for the reply, and only that, leaves the whole database as it was; otherwise the order is placed or refused exactly as stated, with the list of what lacks |
| `Databases.Database.OrderPostCurrent` | reference/netology_pd_diplom/backend/views.py:1096-1167 | the same for placement by contact alone |
| `Databases.Database.OrderPut` | reference/netology_pd_diplom/backend/views.py:1185-1214 | an order is re-addressed exactly when it is the caller's and new and the contact is the caller's; then only its contact changes; a refusal changes nothing and says which of these failed |
| `Databases.Database.OrderDelete` | reference/netology_pd_diplom/backend/views.py:1235-1269 | an order is cancelled exactly when it is the caller's and new and no exception is raised; then each stock goes up by what the order holds and only its state changes; otherwise, exceptions included, the database is as it was, and the answer says why |
| `Databases.Database.ContactPost` | reference/netology_pd_diplom/backend/views.py:860-869 | a contact is created exactly when the required fields are sent and no field is blank or too long; it then has all its fields, under an unused id; a refusal changes nothing and names the refused fields |
| `Databases.Database.ContactDelete` | reference/netology_pd_diplom/backend/views.py:882-895 | deletion by a folded filter: exactly the caller's listed contacts with their cascade, and the count of all rows that go |
| `Databases.Database.ImportData` | reference/netology_pd_diplom/backend/celery_tasks.py:64-102 | the nested loops equal the staged specification, and the import ends in one of the four ways, with what is written before a refusal kept |
| `Databases.Database.Handle` | reference/netology_pd_diplom/backend/urls.py:8-27 | each request's method does what the step of the run theorems does |

## Left out

- HTTP, authentication, request parsing, JSON and YAML loading, URL fetching and the serializer's internals: inputs are already typed; of the item serializer the checks on an existing product and a non-negative quantity are kept, of the contact serializer those on blank and overlong fields, on texts whose surrounding blanks are already cut off.
- Splitting the comma list: an id list is given as its tokens; `isdigit` is modelled on ASCII digits.
- E-mail texts, Celery dispatch and signals: only a failing dispatch inside the atomic block is kept, as a fault.
- Registration, login, tokens, throttling, monitoring and test views: library wrappers.
- The output of the read views, other than their totals.
- `ContactView.put`: the serializer lets the request write the contact's `user`, so editing can hand a contact to another user while orders still point to it, and break the contact ownership that the modelled steps keep.
- `Address`, `Order.confirm_order`, the shop's state flag, admin edits, and the states after `new` other than `canceled`: they have no caller in these steps.
- Concurrent requests: the code takes no row locks, so each request or atomic block is one serial step.
- Column widths and decimal precision: numbers are unbounded.
- Caching and settings.
- Ids of product-parameter and category-shop rows: these tables are keyed by their unique pair.
- Databases.Database.DeleteCascade: the cascade of the foreign keys is one database operation, so the method applies the function that specifies it; the theorems about that function carry the content.
