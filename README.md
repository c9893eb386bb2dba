# Cafe inventory and order engine

A Dafny model of the order engine of the Java cafe web server
(`src/CafeWebServer.java`), together with the small text scanners and lookups
that surround it.

- **`Stock`** (`stock.dfy`) holds the values the engine works on: stock
  records (`Item`), recipes (`Recipe`, whose ingredient map is listed in its
  iteration order as `Ingredient` entries with distinct item ids) and
  low-stock e-mails (`Alert`). It also gives the pure meaning of each
  mutation. `FirstShort` is the entry the availability check stops at,
  `Deduct` the stock after the commit phase, `SaleAlerts` the e-mails that
  phase sends, `Restock` the effect of a restock, and `Snapshot` the rows
  `saveInventory` writes. Lemmas prove the properties of a sale and a restock
  from these functions.
- **`Inventory`** (`inventory_service.dfy`) is the `InventoryService` class:
  the two maps, the key orders of both maps, the alerts handed to the e-mail
  service and the rows last written to `inventory.csv`. Its methods
  (`ProcessOrder`, `RestockItem`, `SaveInventory`, `GetJsonData`) keep the
  source's loops. Each is proved against the `Stock` functions. The module
  also has the `error`/`success` response builders and lemmas that read them
  back with the recipe scanner.
- **`JsonScan`** (`json_scan.dfy`) covers `splitJsonObjects`, the brace-depth
  scanner, and `extractValue`, the key/value scanner with quote toggling.
  Both are proved against declarative definitions: brace depth and the last
  zero-depth point for the first, first occurrence, separators, the first cut
  outside quotes and `String.trim` for the second.
- **`Query`** (`query.dfy`) covers `BaseController.parseQuery`, including
  the semantics of Java's `String.split` with a one-character pattern.
- **`Auth`** (`auth.dfy`) covers `AuthService.loadUsers`, the loop that builds the user table, and `AuthService.verify`, the login lookup on that table.
- **`Options`** (`options.dfy`) is the `Option` type. It stands for Java's
  `null`.

Quantities are `real`. A Java `HashMap` iterates in an unspecified order. The
model writes that order out as a sequence: `itemIds` for the inventory and
the ingredient list of a recipe. The contracts hold for every such order.
`SnapshotIndependentOfOrder` shows that the file written does not depend on
it.

## Model

| member | source | states |
|---|---|---|
| `Inventory.InventoryService.ProcessOrder` | src/CafeWebServer.java:195-213 | unknown dish: "Item not found" and nothing changes; a short ingredient: "Out of stock: <name>" ("Unknown" for a missing item) naming the first short entry in iteration order, and nothing changes; otherwise the stock becomes `Deduct` of the old stock, the alerts are those of `SaleAlerts`, the snapshot is rewritten and the answer is "Sold <recipe name>" |
| `Inventory.InventoryService.FindShort` | src/CafeWebServer.java:200-203 | the availability loop returns -1 exactly when every ingredient exists with stock at least its quantity, and otherwise the first entry that is missing or short |
| `Inventory.InventoryService.CommitSale` | src/CafeWebServer.java:206-210 | the deduction loop leaves the stock equal to `Deduct` of the old stock and appends exactly `SaleAlerts` to the alerts; the service invariant is kept |
| `Inventory.InventoryService.SaleStep` | src/CafeWebServer.java:206-209 | one iteration of the deduction loop is one `Take` and at most one alert, for that entry's item if it is now at or below its threshold |
| `Inventory.InventoryService.RestockItem` | src/CafeWebServer.java:185-193 | returns true iff the id is a stock record; then only that record's stock grows, by qty, and the snapshot is rewritten; otherwise nothing changes |
| `Inventory.InventoryService.SaveInventory` | src/CafeWebServer.java:215-225 | the rows written are `Snapshot`: every record once, in increasing id order |
| `Inventory.InventoryService.GetJsonData` | src/CafeWebServer.java:227-243 | one entry per record in iteration order, with id, name, stock and unit, and a low flag that holds iff stock <= threshold; one entry per dish in menu order with id, name and price |
| `Inventory.InventoryService.PutItem` | src/CafeWebServer.java:149 | a record read by loadStock goes under its id; a new id joins the key order; the invariant (records keyed by id, key order lists each key once) is kept |
| `Inventory.InventoryService.PutRecipe` | src/CafeWebServer.java:178 | a recipe goes under its id; a new id goes to the end of the menu order, a known id keeps its place (LinkedHashMap) |
| `Inventory.InventoryService.constructor` | src/CafeWebServer.java:135-140 | the service starts with empty maps, no alerts and no rows written |
| `Inventory.SaleIsSafe` | src/CafeWebServer.java:195-213 | an order that passes the check leaves every stock non-negative, and restocking its ingredients restores the inventory |
| `Inventory.StatusReadsBack` | src/CafeWebServer.java:261-262 | the `"success":` key of a response is found at position 1 and its value reads back as "true" or "false" |
| `Inventory.MessageKeyAt` | src/CafeWebServer.java:261-262 | the first `"message":` key of a response stands right after the status |
| `Inventory.MessageReadsBack` | src/CafeWebServer.java:261-262 | the first `"message":` key stands right after the status, and for a message without double quotes the message value reads back as the message in its quotes, even when it holds commas or brackets |
| `Inventory.ErrorJson` | src/CafeWebServer.java:261 | `error(msg)` is 30 characters longer than msg; its status reads back as false and, for a message without double quotes, its message reads back as msg in quotes |
| `Inventory.SuccessJson` | src/CafeWebServer.java:262 | `success(msg)` is 29 characters longer than msg; its status reads back as true and, for a message without double quotes, its message reads back as msg in quotes |
| `Stock.FirstShortFrom` | src/CafeWebServer.java:200-202 | the entry the check stops at is short, and every entry before it is available |
| `Stock.FirstShortIffUnavailable` | src/CafeWebServer.java:200-203 | the check finds no short entry iff every ingredient is available |
| `Stock.DeductKeepsRecords` | src/CafeWebServer.java:206-209 | the commit phase keeps every record and its id, name, unit and threshold; only stock changes |
| `Stock.DeductPointwise` | src/CafeWebServer.java:206-208 | after the commit phase each record's stock is its old stock minus what the recipe requires of it (0 for items it does not use) |
| `Stock.SaleChangesOnlyRecipeStock` | src/CafeWebServer.java:206-208 | items outside the recipe are unchanged; each recipe ingredient's stock drops by exactly its quantity |
| `Stock.SaleKeepsStockNonNegative` | src/CafeWebServer.java:200-208 | if all stock is non-negative and the check passes, all stock is non-negative after the deduction |
| `Stock.SaleAlertsAreFinalLows` | src/CafeWebServer.java:206-209 | the alerts of a sale are one per recipe ingredient that ends at or below its threshold, in iteration order, each with that item's name, final stock and unit |
| `Stock.LowIds` | src/CafeWebServer.java:209 | an item is among the alerted ones iff the recipe lists it and it is at or below its threshold |
| `Stock.LowIdsDistinct` | src/CafeWebServer.java:206-209 | no item is alerted twice in one sale |
| `Stock.LowIdsFrame` | src/CafeWebServer.java:209 | which items are alerted depends only on the recipe's own items |
| `Stock.RestockChangesOnlyItem` | src/CafeWebServer.java:186-188 | restock changes only the named record and only its stock, by exactly qty; an unknown id changes nothing |
| `Stock.RestockKeepsStockNonNegative` | src/CafeWebServer.java:188 | a non-negative restock keeps all stock non-negative |
| `Stock.RestockAllPointwise` | src/CafeWebServer.java:185-193 | restocking every ingredient adds to each record exactly what the recipe requires of it |
| `Stock.RestockUndoesSale` | src/CafeWebServer.java:185-213 | restocking each ingredient of a sold recipe by its quantity gives back the inventory before the sale |
| `Stock.QtyOf` | src/CafeWebServer.java:133 | the ingredient map's lookup: 0 for an unlisted item, the entry's quantity for a listed one |
| `Stock.PutIngredient` | src/CafeWebServer.java:174 | `ingredients.put(id, qty)` keeps the ids distinct, maps id to qty and leaves every other id as it was |
| `Stock.Insert` | src/CafeWebServer.java:219 | inserting an id not yet present keeps the list strictly increasing and adds exactly that id |
| `Stock.SortIds` | src/CafeWebServer.java:218-219 | sorting distinct ids gives a strictly increasing list with the same ids |
| `Stock.IncreasingIsUnique` | src/CafeWebServer.java:218-219 | two strictly increasing lists with the same elements are equal |
| `Stock.Rows` | src/CafeWebServer.java:220-223 | one row per listed id, in order, each the record of that id |
| `Stock.SnapshotSortedById` | src/CafeWebServer.java:215-225 | the snapshot is strictly increasing by id, holds every record, and holds nothing but records |
| `Stock.SnapshotIndependentOfOrder` | src/CafeWebServer.java:218-219 | the snapshot is the same for every iteration order of the key set |
| `JsonScan.SplitJsonObjects` | src/CafeWebServer.java:245-253 | the result is, in order, one substring for each '}' that brings the brace depth from 1 to 0, starting at the last depth-zero position before it |
| `JsonScan.LastZero` | src/CafeWebServer.java:249 | a piece starts at the last position before its closing brace where the depth is zero, and the depth is non-zero after that position |
| `JsonScan.PiecesAreObjects` | src/CafeWebServer.java:245-253 | every piece begins with '{' and ends with '}'; its depth stays positive inside and is zero at its end |
| `JsonScan.IndexOfFrom` | src/CafeWebServer.java:255 | `indexOf`: -1 iff the key occurs nowhere at or after the start; otherwise an occurrence with none before it |
| `JsonScan.IndexOfIs` | src/CafeWebServer.java:255 | an occurrence with none before it is the one `indexOf` returns |
| `JsonScan.SkipSeparators` | src/CafeWebServer.java:256 | the position after a maximal run of spaces, colons and newlines |
| `JsonScan.SkipFrom` | src/CafeWebServer.java:256 | the first loop of extractValue stops where `SkipSeparators` does |
| `JsonScan.ValueEnd` | src/CafeWebServer.java:257-258 | the first ',', '}' or ']' with an even number of double quotes before it in the value, or the end of the text |
| `JsonScan.FirstCutIsValueEnd` | src/CafeWebServer.java:257-258 | a cut with no cut before it is `ValueEnd` |
| `JsonScan.ScanValue` | src/CafeWebServer.java:257-258 | the quote-toggling loop stops exactly at `ValueEnd` |
| `JsonScan.QuotesStep` | src/CafeWebServer.java:258 | the quote count grows by one exactly at a double quote |
| `JsonScan.PlainValueEnd` | src/CafeWebServer.java:258 | a value without quotes or delimiters ends at the delimiter after it |
| `JsonScan.QuotedValueEnd` | src/CafeWebServer.java:258 | a quoted value ends at the delimiter after its closing quote, whatever commas or brackets it holds |
| `JsonScan.TrimLeftDropsBlanks` | src/CafeWebServer.java:259 | the front part of `String.trim`: drops only characters <= ' ' from the front, and stops at the first other character |
| `JsonScan.TrimRightDropsBlanks` | src/CafeWebServer.java:259 | the back part of `String.trim`: drops only characters <= ' ' from the back, and stops at the last other character |
| `JsonScan.TrimIsSlice` | src/CafeWebServer.java:259 | `String.trim` gives a slice with only characters <= ' ' dropped on either side, which neither starts nor ends with one |
| `JsonScan.TrimKeeps` | src/CafeWebServer.java:259 | a text with no blank at either end is its own trim |
| `JsonScan.ExtractValue` | src/CafeWebServer.java:254-260 | "0" when the key does not occur; otherwise the trimmed value that starts after its first occurrence and stops at the first ',', '}' or ']' outside double quotes |
| `Query.Fields` | src/CafeWebServer.java:61-62 | the pieces between separators hold no separator and join back to the input |
| `Query.DropTrailingEmpty` | src/CafeWebServer.java:61-62 | `split` drops the trailing empty strings and nothing else |
| `Query.Split` | src/CafeWebServer.java:61-62 | `String.split` with a one-character pattern: no piece holds the separator, and when the separator occurs the last piece is not empty (trailing empty strings are dropped); `SplitRejoins` gives the round trip |
| `Query.SplitRejoins` | src/CafeWebServer.java:61-62 | joining what `split` returns gives the input without its trailing run of separators |
| `Query.PutEntryExtends` | src/CafeWebServer.java:63 | one loop step keeps "the map holds exactly the keys bound so far, each with its last value" |
| `Query.ParseQuery` | src/CafeWebServer.java:58-67 | null gives the empty map; otherwise the keys are exactly those of parts with at least two '='-fields, each bound to the second field of the last such part |
| `Auth.Verify` | src/CafeWebServer.java:277-280 | a role is returned iff the user is registered and the password matches, and it is that user's role; `LoginAfterLoad` ties it to the lines loaded |
| `Auth.VerifyDeterminesPassword` | src/CafeWebServer.java:277-280 | two successful logins of one user used the same password and got the same role |
| `Auth.LoadedRows` | src/CafeWebServer.java:271-275 | loading stores exactly the rows before the first one with fewer than three fields, where `p[1]` or `p[2]` throws and the `catch` ends the loop |
| `Auth.UsersFromLastWins` | src/CafeWebServer.java:273 | a user is in the table iff some stored row names them, and their account is the password and role of the last such row (`HashMap.put` overwrites) |
| `Auth.LoginAfterLoad` | src/CafeWebServer.java:271-280 | after loading, a login succeeds with role r iff the last stored row for that user has password p and role r |
| `Auth.LoadUsers` | src/CafeWebServer.java:267-276 | the loop leaves the table built from exactly the rows before the first short one, each put in file order |

## Left out

- HTTP: the server setup, the controllers and `sendResponse` (src/CafeWebServer.java:18-56, 286-351) are transport plumbing and are not modelled.
- E-mail: the SMTP thread of `EmailService` (src/CafeWebServer.java:75-124) is a network call in a detached thread. Each call to `sendLowStockAlert` is modelled as one `Alert` appended to `sentAlerts`.
- File I/O: reading `inventory.csv`, `recipes.json` and `users.csv`, and writing `inventory.csv`, are not modelled. `PutItem` and `PutRecipe` model the map insertions of the loaders. `PutIngredient` models the ingredient insertion. `savedRows` holds the rows that would be written.
- Parsing in the loaders: `Integer.parseInt`, `Double.parseDouble`, the CSV `split(",")`, the `[`/`]` ingredient-block substring of `loadMenuFromJson` and the exceptions its `catch` blocks swallow are not modelled, because they need number parsing from the Java library.
- Auth.LoadUsers: reading `users.csv`, skipping its header and `line.split(",")` are not modelled; it takes the fields of each line after the header. The `users` field of `AuthService` is the map it returns, as `loadUsers` runs once on a new service. A missing file gives an empty table, which `LoadUsers([])` also gives.
- Text formatting: the `%.2f`/`%d` output of `saveInventory` and `getJsonData` and the JSON text of `getJsonData` are left out. `GetJsonData` returns the entries that text is made of.
- Floating point: quantities are exact reals, so double rounding is not modelled.
- Concurrency: `synchronized` is left out; each method is one atomic step.
- Hash-map iteration order: the inventory key order (`itemIds`) and each recipe's ingredient order are arbitrary sequences. `PutItem` appends a new key at the end, which is one admissible order. Which short ingredient an "Out of stock" message names depends on this order, as it does in Java.
- `Collections.sort` is a library call. It is modelled by the insertion sort `SortIds`, whose result is fixed by `IncreasingIsUnique`.
- Inventory.MessageReadsBack: the message read-back is stated only for messages without a double quote. `error`/`success` do not escape the message, so an item name holding a quote gives a response whose message the scanner cuts elsewhere.
- Inventory.ErrorJson: the message read-back is stated only for messages without a double quote, for the same reason.
- Inventory.SuccessJson: the message read-back is stated only for messages without a double quote, for the same reason.
- Stock.RestockKeepsStockNonNegative: stock stays non-negative only for qty >= 0. `restockItem` adds any qty, and `RestockController` passes `Double.parseDouble(p.get("qty"))` without a sign check (src/CafeWebServer.java:314-316). So a restock with a negative qty can make stock negative, and `RestockItem` models that, as `RestockChangesOnlyItem` states.
