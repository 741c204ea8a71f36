# Stock manager ledger, in Dafny

This project models the ledger core of `app.py`, a small beverage distributor's stock manager. It covers:

- flavors with their inventory counters;
- customers;
- sales with their line items;
- returns;
- user accounts;
- the activity log.

The eight tables created at `app.py:90-167` become the fields of one class, `Ledger.Database`. Each page action that writes to the database becomes one method of that class:

- add, reactivate or delete a flavor;
- add stock;
- record a sale;
- record a return;
- add, reactivate, update or delete a customer;
- create a user.

A further method, `Bootstrap`, is the start-up step at `app.py:337-342`: it runs when the script starts, before anyone logs in, and gives an empty user table the default administrator.

Every method keeps the invariant `Database.Valid()`:

- every flavor has exactly one inventory row;
- no stock counter is negative;
- flavor names are unique, stripped and non-empty;
- usernames are unique;
- every sale and sale item refers to a row that exists.

Each method states its whole new state in terms of the old one. A successful action appends exactly one activity-log row, except `Bootstrap`, which writes no log row; a rejected action writes nothing.

The dashboard (`app.py:428-449`) derives everything from the tables, so it is modelled as pure functions (`Dashboard.Summarize`). Lemmas show that its figures equal reference definitions over the active flavors.

A row id is its position in its table: rows are only marked inactive, never removed. The acting username and today's date are parameters of each method.

Modules:

| module | contents |
|---|---|
| `Wrappers` | `Option` |
| `Text` | Python's `str.strip()` |
| `Schema` | row datatypes and single-row lookups |
| `Credentials` | password digest, default administrator, login |
| `Sales` | a sale's selected items, its line rows and its effect on stock |
| `CustomerEdit` | the customer edit: as written and as intended |
| `Dashboard` | dashboard figures |
| `Ledger` | the `Database` class |

Notes on what the code does:

- **Sale writes.** The writes are not one transaction. Quantities are bounded only by the form (`app.py:679-684`), against the stock read when the page was rendered; there is no check in the handler. `RecordSale` therefore *requires* each quantity to be at most the current stock. From that it proves that no counter becomes negative.
- **Customer names.** They are not unique in the schema (`app.py:118-126`). The lookup at `app.py:874-878` may find any of several rows. The name is used as typed, without stripping.
- **Rejections.** A rejected flavor or customer is reported only by a message. A duplicate username is caught as any exception (`app.py:990-992`). The model returns an outcome value for each case.

## Model

| member | source | states |
|---|---|---|
| Text.LeadingSpaces | app.py:508-510 | The count is at most the length; every counted character is whitespace; the next one is not. |
| Text.TrailingSpaces | app.py:508-510 | The same, at the end of the string. |
| Text.Strip | app.py:508-510 | `name.strip()`: empty exactly when the input is all whitespace. Otherwise it starts and ends with non-whitespace and is the run of the input after its leading whitespace, with only whitespace after it. |
| Text.StripStripped | app.py:508-510 | Stripping a name that is already stripped returns it unchanged. |
| Text.StripIdempotent | app.py:508-510 | Stripping twice equals stripping once. |
| Schema.FindFlavor | app.py:513-517 | Finds a flavor with the given name, active or not, and no earlier one. `None` exactly when no flavor has that name. |
| Schema.FindFlavorUnique | app.py:104 | With unique names, the lookup finds the one flavor that has the name. |
| Schema.FindCustomer | app.py:874-878 | The first customer with the name, whatever its active flag. `None` exactly when there is none. |
| Schema.FirstActiveCustomer | app.py:698-700 | The first active customer with the name. `None` exactly when no active customer has it. |
| Schema.LastActiveCustomer | app.py:841-862 | The active customer with the name and the highest id; no later active customer has it. `None` exactly when there is none. |
| Schema.FindUser | app.py:976-983 | A user with that username. `None` exactly when the username is free. |
| Credentials.HashPass | app.py:175-176 | The digest determines the password it was made from, so two passwords share a digest only when they are equal. |
| Credentials.FindLogin | app.py:362-367 | A user whose username and stored digest both match. `None` exactly when there is none. |
| Credentials.Authenticate | app.py:353-378 | A session exists exactly when some user has the username and the digest of the password. The session names a user whose username and stored digest both match, and carries that user's id and role and the typed username. |
| Credentials.LoginAfterCreate | app.py:970-985 | Append a user under a free username. Logging in with it succeeds exactly with the password it was created with, and returns the new id and its role. |
| Credentials.DefaultAdminLogin | app.py:337-342 | On the bootstrapped user table, `admin` logs in as administrator exactly with `admin123`. |
| Sales.Selected | app.py:671-687 | The items list: no longer than the form's entries, every quantity positive. |
| Sales.SelectedMembers | app.py:686-687 | An entry is selected exactly when it is on the form and its quantity is positive. |
| Sales.SelectedAppend | app.py:675-687 | The items of a form are the items of its first part followed by those of the rest: selection keeps form order. |
| Sales.SelectedDistinct | app.py:675-687 | Selecting cannot make a flavor appear twice. |
| Sales.SelectedWithin | app.py:679-687 | Selected items keep the form's bounds: an existing flavor, and a quantity between 1 and its stock. |
| Sales.Lines | app.py:717-722 | One `sale_items` row per item, in order, carrying the sale id, flavor and quantity. |
| Sales.QuantityOfDistinct | app.py:717-728 | If no flavor appears twice, a flavor's total is its own item's quantity, or 0 when it has no item. |
| Sales.Deducted | app.py:724-728 | The `UPDATE inventory` statements leave the set of inventory rows unchanged. |
| Sales.DeductedQuantity | app.py:724-728 | Each counter loses exactly the total quantity the items take from it. |
| Sales.DeductedBounds | app.py:679-728 | Suppose each flavor appears once with a quantity between 1 and its stock. Then every counter stays between 0 and its old value, each sold flavor loses exactly its quantity, and every unsold counter is unchanged. |
| CustomerEdit.Write | app.py:913-920 | The UPDATE stores the four given fields and keeps the active flag. |
| CustomerEdit.LoadedAsWritten | app.py:860-867 | The values reloaded from the selected row: writing them gives back the stored row. |
| CustomerEdit.EditAsWrittenKeepsRow | app.py:860-920 | As written, an edit leaves the row as it was, whatever was typed. |
| CustomerEdit.EditAsWrittenLosesPhone | app.py:860-920 | A concrete edit whose typed phone number is lost. |
| CustomerEdit.Edited | app.py:911-922 | The intended edit, `Write` given the typed values: the typed fields are stored, the active flag is kept, and writing the same values again changes nothing. |
| Dashboard.StockOf | app.py:431 | `COALESCE(i.stock,0)`: a flavor's counter when it has an inventory row, 0 otherwise; never negative when no counter is. |
| Dashboard.IsLow | app.py:445 | Low means a stock of at most 9; not low means at least `LOW_STOCK_LIMIT` (10). |
| Dashboard.TotalStock | app.py:448 | The stock column's sum is non-negative when no row's stock is negative. |
| Dashboard.LowCount | app.py:449 | The number of low rows: at most the number of rows, and 0 when no row is low. |
| Dashboard.Joined | app.py:428-434 | The left join over active flavors: exactly as many rows as there are active flavors; empty exactly when no flavor is active. |
| Dashboard.JoinedDistinctNames | app.py:428-435 | With unique flavor names, no two rows of the join share a name, so each active flavor appears once. |
| Dashboard.JoinedRows | app.py:428-434 | The joined rows are exactly the active flavors, each with its stock (0 when it has no inventory row). |
| Dashboard.JoinedFlags | app.py:445 | A row is flagged low exactly when its stock is below 10. |
| Dashboard.LowRows | app.py:482 | The alert holds exactly the low rows. |
| Dashboard.LowRowsAppend | app.py:482 | The alert of a table is the alert of its first part followed by that of the rest: the alert keeps the table's order. |
| Dashboard.LowCountIsAlertLength | app.py:449-482 | The low count equals the number of alert rows, which is at most the number of rows. |
| Dashboard.JoinedFigures | app.py:448-449 | The total and the low count of the joined rows equal the reference sums over the active flavors. |
| Dashboard.JoinedTotal | app.py:448 | The joined rows' stock sum equals the reference sum over the active flavors. |
| Dashboard.JoinedLow | app.py:449 | The joined rows' low count equals the reference count of low active flavors. |
| Dashboard.Insert | app.py:435 | Inserting a row adds exactly that row, as a multiset. |
| Dashboard.InsertSorted | app.py:435 | Inserting into name-ordered rows keeps them ordered. |
| Dashboard.SortByName | app.py:435 | `ORDER BY f.name`: a name-ordered permutation of the rows, with the same total and low count. |
| Dashboard.Summarize | app.py:428-491 | "No stock yet" exactly when no flavor is active. Otherwise: rows ordered by name and a permutation of the active flavors' rows, one per active flavor; correct low flags; total and low count equal the reference figures; the alert is exactly the low rows. |
| Dashboard.SummaryInNameOrder | app.py:435 | Any two rows the dashboard shows are in name order, whatever their distance. |
| Dashboard.ActiveStockBounds | app.py:448 | With no negative counter, the total is non-negative and at least any active flavor's stock. |
| Dashboard.SummaryBounds | app.py:428-449 | With no negative counter, the dashboard total is non-negative. Every row's stock lies between 0 and the total. |
| Ledger.Database.constructor | app.py:90-167 | All eight tables start empty, and the invariant holds. |
| Ledger.Database.Bootstrap | app.py:337-342 | An empty user table receives the default administrator; otherwise nothing changes. |
| Ledger.Database.Log | app.py:179-187 | Appends exactly one log row: actor, action and date. |
| Ledger.Database.AddFlavor | app.py:508-560 | The name is stripped, and a blank name does nothing. Three cases follow: (1) A new name appends an active flavor and an inventory row with stock 0. (2) An inactive name is reactivated with stock reset to 0. (3) An active name is rejected with nothing written. Each success logs once, and the invariant is kept. |
| Ledger.Database.InsertFlavor | app.py:544-555 | Appends the flavor at the next id, plus a new inventory row with stock 0. |
| Ledger.Database.ReactivateFlavor | app.py:525-531 | Sets that flavor active and its existing counter to 0; nothing else changes. |
| Ledger.Database.DeleteFlavor | app.py:585-591 | Only the flavor's active flag changes. Stock and sale items stay, and the deletion is logged. |
| Ledger.Database.Restock | app.py:604-620 | The selected active flavor gains exactly `qty`; every other counter is unchanged; the addition is logged. |
| Ledger.Database.RecordSale | app.py:671-730 | With no positive quantity, nothing is written. Otherwise: one header for the first active customer with that name; one line per positive entry; each sold counter drops by its quantity; one log row. No counter becomes negative. |
| Ledger.Database.WriteSale | app.py:703-728 | Appends the header at the next id, then the lines, and deducts the stock. The invariant is kept. |
| Ledger.Database.WriteItems | app.py:716-728 | The loop: the appended rows are `Lines(sid, items)`, and the counters are `Deducted(old, items)`. |
| Ledger.Database.RecordReturn | app.py:782-815 | Appends one return row and one log row. Stock and sales are untouched. With no active customer the selection is `None`, and the row is still stored, with a NULL customer name. |
| Ledger.Database.AddCustomer | app.py:869-909 | A name never seen appends an active customer. An inactive match is reactivated with the typed phone, shop and area. An active match is rejected with nothing written. |
| Ledger.Database.UpdateCustomer | app.py:911-922 | The last active customer with the selected name takes the typed fields (the corrected edit). The update is logged. |
| Ledger.Database.DeleteCustomer | app.py:940-946 | Only the customer's active flag changes, and the deletion is logged. |
| Ledger.Database.CreateUser | app.py:970-992 | An empty username or password does nothing. A taken username is rejected. Otherwise the user is appended with the digest of the password and logged. Usernames stay unique. |

## Left out

- Presentation is not modelled: page rendering, CSS, navigation, the role gates that hide pages (`app.py:497-500`, `599-600`, `938`, `952-953`) and logout. Callers are assumed to be permitted.
- The PostgreSQL connection, `get_df` and pandas are not modelled. The tables are Dafny sequences and a map.
- SHA-256 is not modelled. `hash_pass` is the injective constructor `Sha256`; the model relies on equal digests coming only from equal passwords.
- `date.today()` and the session's username are parameters, not read from a clock or a session.
- Concurrency is not modelled: two sessions racing on the same stock counter, and transactions and rollback. Each method runs alone.
- Ledger.Database.RecordSale: requires each quantity to be at most the current stock. The code has no such check; the form's bound comes from a possibly stale read.
- Ledger.Database.RecordSale: `total_boxes` is stored as given and not related to the line quantities, as in the code.
- Ledger.Database.RecordSale: `entries` is the form's quantity boxes, one per active flavor. The widget layer that builds them is not modelled.
- Ledger.Database.Restock, Ledger.Database.DeleteFlavor, Ledger.Database.DeleteCustomer and Ledger.Database.UpdateCustomer: they require that the selected row exist. In the code the selection comes from a listing of existing rows.
- Ledger.Database.UpdateCustomer: models the corrected edit (see Findings). The as-written edit is `CustomerEdit.EditAsWrittenKeepsRow`.
- Ledger.Database.AddCustomer: the "Saved" message shown after "Customer already exists" (`app.py:924`) is presentation and is not modelled.
- Ledger.Database.CreateUser: a duplicate username is detected by lookup. The code relies on the database's UNIQUE constraint raising an exception. The SERIAL value a failed insert consumes is not modelled.
- Ids are 0-based positions, not SERIAL numbers starting at 1. Gaps left by failed inserts are not modelled.
- Stock and quantities are unbounded integers. Overflow of the 32-bit `INTEGER` columns is not modelled.
- Queries without `ORDER BY` (`app.py:651`, `874-878`) are modelled as returning the lowest id.
- `ORDER BY f.name` is modelled as code-point order. Database collation is not modelled.
- Activity-log text is modelled as the `Action` datatype, which carries the same fields as the formatted message.
- The read-only listings are not modelled: sales history, return history, flavor, customer and user lists, and the current-stock table.

## Findings

| source | as written | input that shows it | evidently intended | confidence | as-written member | corrected member |
|---|---|---|---|---|---|---|
| app.py:860-867, 913-920 | With an existing customer selected, the handler replaces the typed name, phone, shop and area with the stored row's values before the UPDATE. Every edit writes the row back unchanged. | Stored customer "Ravi" with phone "111"; select it, type phone "222", save: the phone stays "111". | The UPDATE stores the typed values. | not executed | CustomerEdit.EditAsWrittenKeepsRow | CustomerEdit.Edited |
