# Inventory management core, modelled in Dafny

This project models the core of a small inventory web application. The
application stores products (name, description, image URL, stock quantity,
category) in a MySQL `products` table. It serves them through a Next.js REST
route, lets signed-in users upload product images to an object store, and has
a React dashboard with a product form. In the model:

- `store.dfy` (module `Store`) is the persistence layer of `lib/database.ts`.
  It is a `ProductTable` class whose fields are the rows in insertion order,
  the AUTO_INCREMENT counter and a logical clock that stands for `NOW()`.
  Its methods create, update, delete, list, search and initialize. Every
  method keeps the table invariant `Valid()`: ids and creation times
  increase, and no two rows share a name. The listing and the search are
  functions of the rows.
- `products_api.dfy` (module `ProductsApi`) is `GET` and `POST` of
  `app/api/products/route.ts`. It covers the list/search routing, the
  required-field guard, the `image_url || ""` and `parseInt(x) || 0`
  coercions, and the mapping from store errors to HTTP statuses.
- `upload_api.dfy` (module `UploadApi`) is `POST` of
  `app/api/upload-image/route.ts`. It covers the order of the
  auth/file/type checks, the extension taken after the last dot, and the
  `products/<stamp>-<random>.<ext>` storage key.
- `product_form.dfy` (module `ProductForm`) is `components/product-form.tsx`.
  It has the error dictionary that `validateForm` builds check by check, the
  two image handlers that keep one image source, and `handleSubmit` with
  trimming and reset. The form's state is a `Form` class.
- `dashboard.dfy` (module `Dashboard`) is `app/protected/page.tsx`. It has
  the stock badge, the fetch URL, and a `Page` class. The class holds the
  list and the selection state that the create, update and delete handlers
  change.
- `urls.dfy` (module `Urls`) holds `encodeURIComponent` and the way a route
  reads a query parameter back. Together they show that the route sees
  exactly the search term the dashboard sent.
- `strings.dfy`, `sequences.dfy` and `wrappers.dfy` are the JavaScript
  string and array operations the core relies on: `trim` with the
  ECMAScript white-space set, `split`, `startsWith`, `endsWith`, substring
  search and `filter`. They also hold `Option` and `Result`.

Every outside effect becomes a parameter of the handler that depends on it:

- Whether the database answers is a `Link`, `Up` or `Down(message)`.
- The session check is a boolean.
- The object store's outcome is `stored` and `publicUrl`.
- `Date.now()` and `Math.random()` are `stamp` and `random`.
- What `fetch` answered in a client handler is an `Option` or a `Result`
  parameter.

Each client handler runs to completion in one step.

Where the code and its evident intent differ, the model follows the code:

- A duplicate name on `POST` is answered with 500, not 409 (see Findings).
- The search is a plain substring test. Any case-insensitivity would come
  only from the MySQL collation, which is left out.

## Model

| member | source | states |
|---|---|---|
| Store.ProductTable.constructor | lib/database.ts:94-97 | the database before `initializeDatabase` has run: no `products` table, no rows, the AUTO_INCREMENT counter at 1 |
| Store.ProductTable.Initialize | lib/database.ts:94-113 | CREATE TABLE IF NOT EXISTS: either the table exists afterwards, or the driver error comes back and nothing changes; on an existing table it changes nothing (idempotent); a new table starts empty with the counter at 1 |
| Store.ProductTable.GetProducts | lib/database.ts:24-32 | returns every row exactly once, ordered by creation time descending; a missing table or dead link is an error |
| Store.ListingIsOrdered | lib/database.ts:26 | the listing holds the same rows as the table, as many of them, strictly newest first |
| Store.ProductTable.GetProductsBySearch | lib/database.ts:34-45 | returns exactly the rows whose name, description or category contains the term, newest first |
| Store.SearchIsFilteredListing | lib/database.ts:36-39 | the search result is ordered like the listing and holds a row iff the row is in the table and matches |
| Store.SearchAfterInsert | lib/database.ts:36-39 | after an insertion the search result gains the new row at its head iff the row matches, and is otherwise the same |
| Store.ProductTable.Create | lib/database.ts:47-70 | a taken name fails with the name-taken error and leaves the table unchanged; a fresh name appends exactly one row with the five given fields and a previously unused id, and returns that id with the fields |
| Store.InsertKeepsInvariant | lib/database.ts:55-62 | appending a row with a new name, a larger id and a later time keeps names unique and rows in insertion order |
| Store.ProductTable.Update | lib/database.ts:72-82 | an absent id changes nothing; a name another row holds fails with MySQL's duplicate-entry error, and nothing changes; otherwise exactly the five fields of that row change, its `updated_at` increases, its id and `created_at` stay the same, and the other rows do not change |
| Store.Replace | lib/database.ts:74-77 | the UPDATE keeps every row's position, id and `created_at`; a row with another id is untouched; the row with the id carries exactly the new fields and the new `updated_at`; the id is present afterwards iff it was before |
| Store.ReplaceKeepsInvariant | lib/database.ts:74-77 | an update that takes no other row's name keeps names unique and rows in insertion order |
| Store.ProductTable.Delete | lib/database.ts:84-91 | the rows afterwards are the old rows without the id, in their old order; none has the id; an absent id changes nothing |
| Store.DeleteKeepsInvariant | lib/database.ts:86 | the rows that survive a delete keep their order and unique names, hold no row with the id, and hold every other row |
| Sequences.Filter | app/protected/page.tsx:149 | the result holds only the elements the test accepts, and every element of the input the test accepts |
| Sequences.FilterKeepsOrder | app/protected/page.tsx:149 | any relation that held between earlier and later elements still holds after filtering, so the order is kept |
| Sequences.FilterConcat | lib/database.ts:86 | filtering a concatenation is the concatenation of the filtered parts |
| Sequences.FilterKeepsAll | lib/database.ts:86 | a filter that rejects nothing returns its input |
| ProductsApi.QueryFor | app/api/products/route.ts:13-22 | a search happens iff the `search` parameter is present and non-empty, and then it is for that term; otherwise the full listing |
| ProductsApi.Get | app/api/products/route.ts:8-32 | a connection that fails at `initializeDatabase` gives 500 "Failed to fetch products" and changes nothing; one that fails at the following SELECT gives the same 500, with the table created if it was missing; otherwise 200 with the listing or the search result the query selects; after a successful initialize the table exists, an existing table is left exactly as it was, and a missing one is created empty with the counter at 1; the rows, the counter and the clock never change |
| ProductsApi.ToFields | app/api/products/route.ts:50-56 | passes name, description and category through; image URL is `""` iff the request's is missing or empty; stock is 0 iff it did not parse or parsed to 0, and is otherwise the parsed number, negatives included |
| Strings.ParsedOrZero | app/api/products/route.ts:54 | `parseInt(x) \|\| 0`: 0 iff nothing parsed or 0 parsed, otherwise the parsed value |
| ProductsApi.Post | app/api/products/route.ts:34-77 | a body that is not JSON, or is `null`, gives 500 "Failed to create product"; a missing required field gives 400; neither touches the store; a connection failure at `initializeDatabase`, or at `createProduct` after a successful initialize, goes through the catch mapping with no row added (in the second case the table now exists); a taken name goes through the catch mapping and changes nothing; a fresh name gives 201 with the created product, whose id is the counter's old value (so no id is ever handed out twice) and whose fields are exactly the coerced ones, one row is appended, the counter moves past the new id and the clock ticks once; the counter never goes back |
| ProductsApi.CreateFailure | app/api/products/route.ts:59-76 | as written: 409 iff the error message equals the Spanish conflict text, every other error is 500 "Failed to create product" |
| ProductsApi.DuplicateNameIsAnsweredWith500 | app/api/products/route.ts:62-75 | the store's duplicate-name error is answered with 500 |
| ProductsApi.ConflictOnlyForThatDriverMessage | app/api/products/route.ts:62-70 | the 409 branch is taken for no error the store itself raises; only a driver error carrying exactly that text would reach it |
| ProductsApi.CreateFailureIntended | app/api/products/route.ts:62-75 | corrected mapping: 409 iff the store reports the name as taken, 500 otherwise |
| ProductsApi.IntendedDiffersOnlyOnDuplicates | app/api/products/route.ts:62-75 | the corrected mapping differs from the written one on the duplicate-name error and on nothing else the store raises |
| UploadApi.Extension | app/api/upload-image/route.ts:36 | the extension has no dot, ends the file name and follows the file name's last dot; without a dot it is the whole name |
| UploadApi.StoragePath | app/api/upload-image/route.ts:37-38 | the storage key starts with `products/` and ends with `.` and the extension |
| UploadApi.Upload | app/api/upload-image/route.ts:4-67 | 401 iff unauthenticated, checked first; then 400 for no file, then 400 for a non-image type; the store is written to iff all three checks pass, under the key built from the extension; 200 with the public URL iff that write succeeded, else 500 |
| Strings.Split | app/api/upload-image/route.ts:36 | at least one piece, no piece contains the separator, and joining the pieces with it gives the input back |
| Strings.JoinLast | app/api/upload-image/route.ts:36 | the last piece is what follows the last separator of the joined string |
| Strings.TrimShape | components/product-form.tsx:89-91 | `trim` returns a contiguous part of the input with only white space cut from both ends |
| Strings.TrimEnds | components/product-form.tsx:89-91 | a non-empty trimmed string neither starts nor ends with white space |
| Strings.TrimEmptyIffBlank | components/product-form.tsx:30-40 | `s.trim()` is empty iff the string is all white space |
| Strings.TrimsToEmpty | components/product-form.tsx:30-40 | `!s.trim()` holds iff the string is all white space |
| ProductForm.Form.constructor | components/product-form.tsx:16-25 | the form starts blank, with no file, not uploading and no errors, which is the state a successful submission returns to |
| ProductForm.CollectErrors | components/product-form.tsx:27-49 | the dictionary has an entry, with its message, for each failed check and no other entry: blank name, blank description, blank category, negative stock, neither file nor URL |
| ProductForm.EmptyIffPasses | components/product-form.tsx:51 | the dictionary is empty iff every check passes |
| ProductForm.Form.ValidateForm | components/product-form.tsx:27-52 | stores the dictionary and returns true iff it is empty, that is iff the form passes |
| ProductForm.Form.ChangeName | components/product-form.tsx:137-140 | sets the name and clears its error entry, nothing else |
| ProductForm.Form.ChangeDescription | components/product-form.tsx:152-155 | sets the description and clears its error entry |
| ProductForm.Form.ChangeCategory | components/product-form.tsx:169-172 | sets the category and clears its error entry |
| ProductForm.Form.ChangeStockQuantity | components/product-form.tsx:186-189 | sets the stock to `parseInt(value) \|\| 0` and clears its error entry |
| ProductForm.Form.HandleImageChange | components/product-form.tsx:115-122 | a chosen file replaces the typed URL and clears the image error; no file changes nothing; never both a file and a URL |
| ProductForm.Form.HandleImageUrlChange | components/product-form.tsx:124-128 | a typed URL drops the chosen file and clears the image error; never both a file and a URL |
| ProductForm.Submission | components/product-form.tsx:88-94 | the submitted name, description and category are the `trim` of the form's text, so they have no white space at either end; stock and image URL are passed through |
| ProductForm.Form.HandleSubmit | components/product-form.tsx:72-113 | an invalid form submits nothing and shows its errors; a failed upload submits nothing and sets the submit error; otherwise submits the trimmed fields with the uploaded or typed URL; on success the form resets to blank, on failure it keeps its contents and shows the submit error; a validated submission always ends with the upload flag off |
| Dashboard.GetStockStatus | app/protected/page.tsx:182-186 | "Sin Stock"/destructive iff 0, "Bajo Stock"/secondary iff non-zero and below 10 (negatives included), "En Stock"/default iff 10 or more |
| Dashboard.StockStatusMonotone | app/protected/page.tsx:182-186 | among non-negative quantities a larger one never shows a worse badge |
| Dashboard.ProductsUrl | app/protected/page.tsx:69-71 | the URL has a query iff the term is non-empty, and its `search` parameter reads back as exactly the term |
| Dashboard.RouteAnswersThePageQuery | app/protected/page.tsx:69-71 | for the dashboard's URL, the route lists everything for an empty term and searches for exactly that term otherwise |
| Urls.RoundTrip | app/protected/page.tsx:70 | decoding the `encodeURIComponent` of any string gives that string back |
| Urls.EncodedCharacters | app/protected/page.tsx:70 | `encodeURIComponent` produces only unreserved characters and `%`, so never `&`, `=`, `#` or `+` |
| Urls.ReadBack | app/api/products/route.ts:13-14 | `searchParams.get(name)` on `path?name=<encoded value>` gives the value back |
| Urls.NoQuery | app/api/products/route.ts:13-14 | a URL without `?` has no parameters |
| Urls.CutAt | app/api/products/route.ts:13-14 | splitting at the first occurrence of a character: the prefix has none of it, and the parts rebuild the input |
| Dashboard.Page.constructor | app/protected/page.tsx:39-47 | the page starts with an empty list and search box, loading, the dialogs closed, nothing selected and no error |
| Dashboard.Page.SetSearchTerm | app/protected/page.tsx:233 | typing in the search box sets the term and nothing else |
| Dashboard.Page.FetchProducts | app/protected/page.tsx:64-86 | requests `ProductsUrl(search)`; success shows the answer and clears the error; failure keeps the list and shows "Failed to load products"; loading ends either way |
| Dashboard.Page.HandleSearch | app/protected/page.tsx:88-91 | fetches for the term in the search box |
| Dashboard.Page.ClearSearch | app/protected/page.tsx:244-247 | empties the search box and fetches the unfiltered list |
| Dashboard.Page.HandleCreateProduct | app/protected/page.tsx:93-112 | success puts the new product at the head of the list with the rest unchanged and closes the dialog; failure keeps the list and shows the reply's error or "Failed to create product"; the selections are cleared either way |
| Dashboard.CreateMatchesRefetch | app/protected/page.tsx:109 | prepending the created product gives the list a refetch of the listing would show |
| Dashboard.Page.HandleUpdateProduct | app/protected/page.tsx:114-134 | without a product being edited nothing happens; success refetches for the current term and closes the dialog; failure keeps the list and shows the error; the selections are cleared either way |
| Dashboard.Page.RefreshAfterUpdate | app/protected/page.tsx:131-132 | refetches for the current term and closes the dialog |
| Dashboard.Page.HandleDeleteProduct | app/protected/page.tsx:136-151 | without a pending deletion nothing happens; success drops every entry with that id and keeps the rest in order; failure keeps the list and shows the error; the selections are cleared either way |
| Dashboard.DeleteMatchesRefetch | app/protected/page.tsx:149 | filtering the id out of the shown listing gives what a refetch after the store's delete would show |
| Dashboard.Page.Settle | app/protected/page.tsx:160-164 | no submission in progress, nothing being edited, nothing awaiting deletion, confirmation closed |
| Dashboard.Page.HandleEdit | app/protected/page.tsx:167-170 | selects the product for editing and opens the dialog |
| Dashboard.Page.OpenDeleteConfirm | app/protected/page.tsx:172-175 | selects the product for deletion and opens the confirmation |
| Dashboard.Page.CloseDeleteConfirm | app/protected/page.tsx:177-180 | clears the deletion selection and closes the confirmation |
| Dashboard.Page.CancelForm | app/protected/page.tsx:213-216 | closes the dialog and clears the editing selection |

## Left out

- MySQL specifics are left out: the connection pool, environment configuration and logging (`lib/database.ts:3-11`, the `console` calls). A dead connection is the `Link` parameter, and its message is what the error carries.
- Store.ProductTable.GetProductsBySearch: plain substring matching. It leaves out the case-folding of the column collation, because that depends on server configuration. It also leaves out the `%` and `_` wildcards of `LIKE`, which a term passed unescaped (`lib/database.ts:38`) can contain; treating the term literally is a simplification of the model.
- Store.UniqueNames: compares names exactly. The real `UNIQUE` index compares them under the column's collation (with MySQL 8's default, case- and accent-insensitively).
- Store.ProductTable.Create: the check and the insert are one step. The race between two requests, which the `UNIQUE` index would then catch, is left out, and so is all concurrency.
- Store.ListingIsOrdered: `created_at` is a logical clock that ticks once per write. Two rows created in the same second, which MySQL orders arbitrarily, do not arise in the model.
- Column widths (`VARCHAR(255)`, `VARCHAR(500)`, `VARCHAR(100)`) and the 32-bit range of `INT` are not modelled. Stock quantities and ids are unbounded. Ids are natural numbers. Update and delete therefore do not take the negative id that the id parsing of `app/api/products/[id]/route.ts:73-77` can produce; the source runs a no-op UPDATE or DELETE for it, which is what an absent id does in the model.
- `getProductById` is imported by `app/api/products/[id]/route.ts`, but `lib/database.ts` does not define it. That route, and the `PUT`/`DELETE` calls the dashboard makes to it, are therefore only their outcomes (`reply`).
- `app/api/health/route.ts`, `app/page.tsx` and `components/hero.tsx` hold no logic of the core. All JSX, styling, image fallbacks and the dialog's `onOpenChange` toggles are left out.
- ProductsApi.CreateRequest: the text members are strings or absent. Other JSON values (numbers, arrays) that would pass the truthiness test are not modelled. A body that is not JSON, or is `null`, is modelled, as the `None` body of `Post`.
- Strings.ParsedOrZero: takes what `parseInt` read rather than the text, because the full `parseInt` grammar and floating-point values are left out.
- UploadApi.Upload: the outer `catch` at `app/api/upload-image/route.ts:60-66` is not modelled. It answers 500 for an exception thrown by the client library or by reading the form data, and for a `file` field that is a non-empty string rather than a file, whose `type` is then undefined at line 28. `Option<File>` cannot express such a field. The session check and the object store are abstract inputs, and so are `Date.now()` and `Math.random()`.
- Urls.FormDecode: a component whose escapes are not well-formed UTF-8 (overlong forms and surrogates included) is left undecoded as a whole. The server's URL parser puts U+FFFD in place of each malformed sequence instead. The dashboard never produces such input.
- Dashboard.Page: the session check with its redirect (`app/protected/page.tsx:51-62`) and the `user` state are left out. So are `fetch`, JSON parsing and the interleaving of async handlers: each handler is one atomic step whose network outcome is a parameter.
- Dashboard.Page: the list holds the id and the five fields of each product. The timestamps carried in the JSON are not modelled, because the page never reads them.
- ProductForm: `uploadImage` (`components/product-form.tsx:54-70`) is reduced to its outcome, the URL or a failure, because it is a `fetch` to the upload route modelled in `upload_api.dfy`.

## Findings

| source | as written | input that shows it | evidently intended | confidence | as-written member | corrected member |
|---|---|---|---|---|---|---|
| app/api/products/route.ts:62-75 with lib/database.ts:56 | POST answers 409 only for the message "Producto con este nombre ya existe", but the store throws "Product with this name already exists" for a taken name | POST a body whose `name` equals an existing product's name: the answer is 500 "Failed to create product" | a taken name is answered with 409: the route has a 409 branch with a conflict message for a taken name, which the store's message can never reach | high (proved; not executed) | ProductsApi.DuplicateNameIsAnsweredWith500 | ProductsApi.IntendedDiffersOnlyOnDuplicates |
