# Product API: store, content negotiation, versioning

This project is a Dafny model of three parts of an Express tutorial API for
a product catalogue.

- **The product store** (`Theory/Task2.js`). The collection `productos` and
  the id counter `siguienteId` are the fields of the class
  `CatalogStore.Store`. Each handler that changes them is a method of that
  class:
  - create, full replace (PUT), partial update (PATCH) and delete;
  - bulk create and bulk delete;
  - soft delete and restore.

  The two read-only handlers are functions over the collection:
  `Catalog.ListProducts` (filters, then offset pagination) and
  `Catalog.GetById`. The building blocks live in two other modules:
  - `Catalog` holds the validation, the record construction and the PATCH
    update loop (`Catalog.CollectUpdates`);
  - `CatalogBulk` holds the bulk loops, written as folds that the store
    methods' loops are proved against.
- **Content negotiation** (`Theory/Task3.js`).
  - `XmlSerializer` is the recursive `objectToXML` serialiser.
  - `Negotiation` holds the two format-selection rules, which test the
    `Accept` header for substrings:
    - the `res.format` override;
    - the `requestedFormat` middleware.
  - `Negotiation` also holds `sendResponse`.
- **API versioning** (`Theory/Task4.js`). The `Versioning` module holds:
  - the header-based version choice;
  - the version-dependent response shapes of `getProductos`;
  - the v1 projection `{id, nombre, precio}`;
  - the hybrid app, whose routers are mounted under URL prefixes and stamp
    their version on the request and on the `API-Version` header.

Each handler's answer is a value: a status code with a body, or a status
code with an error message. The clock is a `now` parameter. The product
list that the Task3 and Task4 handlers read is also a parameter.

The model follows the code as written, including these details a reader of
the handlers might not expect:
- **Whitespace-only names.** A create or replace with a name made only of
  white space passes validation and stores an empty name.
- **Bulk create prices.** Bulk create checks only that the price is present
  and non-zero, so it accepts negative prices.
- **Fractional stock.** PATCH accepts any number ≥ 0 as stock, fractions
  included.
- **Non-string names.** A name that is truthy but not a string makes
  `nombre.trim()` throw:
  - in create this happens after the id was taken, giving a 500;
  - in PUT it gives a 500 and nothing is written;
  - in bulk create the error is caught and reported for that item.
- **`requestedFormat` middleware.** It tests `format=xml` together with
  `application/xml` before anything else, so an XML `Accept` header beats
  `format=html`. It does not recognise `text/xml`.
- **`res.format` override.** It answers 406 when the handler has neither
  the negotiated formatter nor a JSON one.
- **Header versioning.** It defaults to `v1`, not to the latest version.
- **No `activo` flag.** Products have no `activo` flag.

## Model

| member | source | states |
|---|---|---|
| `CatalogStore.Store.constructor` | Theory/Task2.js:10-15 | the store starts with the two seed products and the counter at 3, satisfying the invariant: unique ids, all below the counter, soft-delete flag and stamp consistent |
| `CatalogStore.Store.Create` | Theory/Task2.js:18-43 | a missing/falsy name, missing price or price ≤ 0 gives 400 and changes nothing; a non-string name gives 500 after bumping the counter; otherwise exactly one record is appended, with the old counter as its id (fresh in the store), the record `Catalog.NewProduct` builds (the trimmed name, the input price, category defaulting to General, stock to 0), and the counter is incremented |
| `CatalogStore.Store.Replace` | Theory/Task2.js:94-128 | unknown id gives 404, an invalid body gives 400, an untrimmable name gives 500, each with the store unchanged; otherwise only the record at the found index is replaced, keeping id and creation stamp |
| `CatalogStore.Store.Patch` | Theory/Task2.js:131-181 | unknown id gives 404 with the store unchanged; otherwise only the found record changes, to the record patched with the updates the body yields, and is answered with 200 |
| `CatalogStore.Store.Delete` | Theory/Task2.js:184-200 | unknown id gives 404 with the store unchanged; otherwise the found record is answered and spliced out, and the store becomes the old store without that id, others in order |
| `CatalogStore.Store.BulkCreate` | Theory/Task2.js:209-251 | no array or an empty one gives 400 with nothing changed; otherwise the loop appends exactly the records of the bulk fold, the counter ends where the fold leaves it, and the status is 207 exactly when the error list is non-empty, else 201 |
| `CatalogStore.Store.BulkDelete` | Theory/Task2.js:254-280 | no array gives 400; otherwise the loop leaves the collection, deleted list and not-found list of the bulk-delete fold, and the collection is the old one without any requested id |
| `CatalogStore.Store.SoftDelete` | Theory/Task2.js:283-298 | unknown id gives 404 with the store unchanged; otherwise only the found record changes, flagged as deleted with the given time |
| `CatalogStore.Store.Restore` | Theory/Task2.js:301-320 | unknown id gives 404; a record not flagged gives 400; both leave the store unchanged; otherwise only the found record changes, with flag and stamp removed |
| `Catalog.FindIndex` | Theory/Task2.js:96 | the result is -1 exactly when no record has the id, else the first index holding it |
| `Catalog.Trim` | Theory/Task2.js:30 | `String.prototype.trim` on the name; no contract of its own, its meaning is stated by `Catalog.TrimSpec` |
| `Catalog.CategoryOrDefault` | Theory/Task2.js:32 | a non-empty given category is kept; an absent or empty one becomes `General`; the result is never empty |
| `Catalog.StockOrZero` | Theory/Task2.js:33 | a given integer stock is kept; an absent or unparsable one becomes 0 |
| `Catalog.NewProduct` | Theory/Task2.js:28-35 | the created record carries the given id, the trimmed input name (no surrounding white space), the input price, the input category or `General`, the input stock or 0, a creation stamp and no update stamp, and is live with a consistent soft-delete state |
| `Catalog.Replacement` | Theory/Task2.js:114-122 | the record written by PUT keeps id and creation stamp, is stamped as updated, drops any soft-delete flag, and takes name, price, category and stock exactly as a create of the same body would |
| `Catalog.GetById` | Theory/Task2.js:80-91 | succeeds with 200 exactly when the id is present, with a stored record of that id; otherwise 404 with the not-found message |
| `Catalog.Filter` | Theory/Task2.js:53 | the result is no longer than the input, every element passes the test and comes from the input, and every passing value occurs as often as in the input |
| `Catalog.FilterIsSubsequence` | Theory/Task2.js:53 | a filter keeps its elements in their original order |
| `Catalog.FilterFusion` | Theory/Task2.js:52-62 | two filters in a row equal one filter by the conjunction of their tests |
| `Catalog.Filtered` | Theory/Task2.js:47-62 | the three optional filters applied in turn to a copy of the store; no contract of its own, its meaning is stated by `Catalog.FilteredIsFilterByMatches` and `Catalog.FilteredSpec` |
| `Catalog.FilteredIsFilterByMatches` | Theory/Task2.js:49-62 | the three optional filters together are one filter by "every active filter accepts the product" |
| `Catalog.FilteredSpec` | Theory/Task2.js:49-63 | the listing is a subsequence of the store, every item has the exact category and a price within the given bounds, and every matching product is listed as often as it is stored |
| `Catalog.CeilDiv` | Theory/Task2.js:75 | the page count is the least number of pages of the given size that hold all items |
| `Catalog.Page` | Theory/Task2.js:67-68 | a page holds at most `limite` items; it is empty when its offset (pagina-1)*limite is at or past the end, and otherwise it is the list from that offset up to the next page's offset or the end, whichever comes first |
| `Catalog.ListProducts` | Theory/Task2.js:46-77 | page and limit default to 1 and 10, `total` is the filtered count, `paginasTotal` the ceiling of total over limit, and the page is the slice of the filtered list starting at (pagina-1)*limite, of at most `limite` items (empty past the end, by `Catalog.Page`) |
| `Catalog.FilteredIgnoresPaging` | Theory/Task2.js:47-63 | which products are listed does not depend on the page requested |
| `Catalog.PagesCover` | Theory/Task2.js:65-68 | pages k to the last one, concatenated, are the filtered list from offset (k-1)*limite on |
| `Catalog.PageBounds` | Theory/Task2.js:67-75 | every page up to the last starts inside the list; pages before the last are full, and the last reaches the end |
| `Catalog.PagesReassemble` | Theory/Task2.js:65-75 | concatenating pages 1 to `paginasTotal` gives back exactly the filtered list |
| `Catalog.PastLastPageEmpty` | Theory/Task2.js:65-75 | a page number beyond `paginasTotal` lists no products |
| `Catalog.TrimSpec` | Theory/Task2.js:30 | the trimmed name neither starts nor ends with white space, is a contiguous slice of the input, and everything cut off is white space |
| `Catalog.TrimIdempotent` | Theory/Task2.js:150-151 | trimming an already trimmed name changes nothing, so a name stored by create is left unchanged by a PATCH that re-sends it |
| `Catalog.UniqueIdsPairwise` | Theory/Task2.js:10-15 | the recursive uniqueness invariant is equivalent to "no two positions hold the same id" |
| `Catalog.UniqueAppend` | Theory/Task2.js:28-37 | appending a record whose id is not yet present keeps ids unique |
| `Catalog.UniqueUpdate` | Theory/Task2.js:114-122 | overwriting a record with one of the same id keeps ids unique |
| `Catalog.UpdateStep` | Theory/Task2.js:147-169 | one iteration over a body entry: the allow-list, the `switch` on the key and that field's check; no contract of its own, see `Catalog.UpdatesOfSpec` |
| `Catalog.UpdatesOf` | Theory/Task2.js:143-171 | the `actualizaciones` object after the whole loop, entry by entry in order; no contract of its own, its meaning is stated by `Catalog.UpdatesOfSpec` |
| `Catalog.UpdatesOfSpec` | Theory/Task2.js:142-171 | PATCH updates a field exactly when some body entry names it with a value passing that field's check (non-empty trimmed string, number > 0, string, number ≥ 0), taking the last such value; other keys and failing values change nothing |
| `Catalog.CollectUpdates` | Theory/Task2.js:142-171 | the loop over the body's entries yields exactly the updates of the entry-by-entry fold |
| `Catalog.Patched` | Theory/Task2.js:173-175 | id, creation stamp and soft-delete state are kept; each of the four fields takes its update when there is one and is kept otherwise; the update stamp is set |
| `Catalog.PatchIdempotent` | Theory/Task2.js:142-175 | applying the same PATCH body twice gives the same record as applying it once, apart from the update stamp |
| `Catalog.SoftDeleted` | Theory/Task2.js:291-292 | the record is flagged as deleted with the given time, consistently, and every other field is kept |
| `Catalog.Restored` | Theory/Task2.js:309-314 | the record loses flag and stamp, consistently, and every other field is kept |
| `Catalog.RestoreUndoesSoftDelete` | Theory/Task2.js:291-314 | restoring a soft-deleted live record gives back the record as it was before the soft delete |
| `CatalogBulk.BulkCreateStep` | Theory/Task2.js:221-241 | the `forEach` callback for one item: the guard, then an id taken before the name is trimmed; no contract of its own, its effect is stated by the bulk-create lemmas below |
| `CatalogBulk.BulkCreateRun` | Theory/Task2.js:218-242 | the callback run over every item in order, the counter carried along; no contract of its own, see `CatalogBulk.BulkCreateIds`, `CatalogBulk.BulkErrorsSound`, `CatalogBulk.BulkErrorsComplete` and `CatalogBulk.BulkCreateMatchesReference` |
| `CatalogBulk.BulkCreateIds` | Theory/Task2.js:218-242 | created count plus error count equals the number of items; created ids are strictly increasing and lie between the old and the new counter; the counter advances at most once per item |
| `CatalogBulk.BulkErrorsSound` | Theory/Task2.js:221-241 | every error entry carries the index of an item that fails, with the message of the check it failed, and entries come in increasing index order |
| `CatalogBulk.BulkErrorsComplete` | Theory/Task2.js:221-241 | an item's index is in the error list exactly when the item fails the guard or its name cannot be trimmed |
| `CatalogBulk.BulkCreateSplit` | Theory/Task2.js:221-242 | processing a batch of items and then another equals processing them together, the counter carried across |
| `CatalogBulk.BulkCreateMatchesReference` | Theory/Task2.js:221-242 | the records the loop creates are those of a front-to-back reading that skips rejected items and burns an id on an untrimmable name; the counter advances by one per item past the guard |
| `CatalogBulk.BulkDeleteStep` | Theory/Task2.js:266-272 | one id: splice out the first record holding it or report it as not found; no contract of its own, see the bulk-delete lemmas below |
| `CatalogBulk.BulkDeleteRun` | Theory/Task2.js:263-273 | the callback run over every id in order; no contract of its own, see `CatalogBulk.BulkDeleteConserves`, `CatalogBulk.BulkDeletePartition` and `CatalogBulk.BulkDeleteRemovesListed` |
| `CatalogBulk.BulkDeleteConserves` | Theory/Task2.js:263-273 | remaining plus deleted records are exactly the original multiset; deleted plus not-found counts equal the number of ids; every deleted record and every not-found entry comes from the request |
| `CatalogBulk.BulkDeletePartition` | Theory/Task2.js:263-273 | every requested id lands in exactly one result list, as often as it was requested: the ids of the deleted records plus the ids not found are, as a multiset, the request; an id no stored record carries is always reported as not found |
| `CatalogBulk.RemoveFirstIsFilter` | Theory/Task2.js:267-269 | on unique ids, splicing out the first record holding an id is filtering that id out |
| `CatalogBulk.FilterKeepsUnique` | Theory/Task2.js:266-273 | removing records keeps ids unique |
| `CatalogBulk.BulkDeleteRemovesListed` | Theory/Task2.js:266-273 | on unique ids the records left are exactly those whose id was not requested, in order, and a record is deleted exactly when it was stored and its id requested |
| `XmlSerializer.ToXml` | Theory/Task3.js:10-26 | `toXML(data, name)`: the output is empty exactly for null or undefined, and otherwise opens with `<name>` and closes with `</name>` |
| `XmlSerializer.ObjectToXml` | Theory/Task3.js:9-29 | the output is the XML declaration, a line break, then the tree serialised under the root name, `response` by default |
| `XmlSerializer.RenderTokens` | Theory/Task3.js:10-26 | the serialised string is exactly the concatenation of a sequence of opening tags, text and closing tags |
| `XmlSerializer.TokensNest` | Theory/Task3.js:10-26 | every tag the serialiser opens it closes, with the same name, in properly nested order |
| `XmlSerializer.NullFieldsVanish` | Theory/Task3.js:11-17 | entries whose value is null or undefined produce no element: dropping them leaves the output unchanged |
| `XmlSerializer.ArrayIsItemObject` | Theory/Task3.js:13-23 | an array is written like an object with one `item` entry per element, in order |
| `XmlSerializer.TextIsNotEscaped` | Theory/Task3.js:25 | scalar text is not escaped, so two different trees can serialise to the same string |
| `XmlSerializer.ObjectToXmlDefaults` | Theory/Task3.js:9-28 | without a root name the root is `response`; a null tree yields only the declaration line |
| `Negotiation.ContainsSpec` | Theory/Task3.js:37 | the substring test holds exactly when the pattern occurs at some position |
| `Negotiation.NegotiatedType` | Theory/Task3.js:34-41 | the type is application/xml exactly when the header mentions application/xml or text/xml, text/html exactly when it mentions text/html but neither XML type, and application/json otherwise |
| `Negotiation.ResFormat` | Theory/Task3.js:43-50 | 406 with "Formato no soportado" exactly when neither the negotiated nor the JSON formatter exists; otherwise the Content-Type is the negotiated type, with that type's formatter when present and the JSON formatter as fallback |
| `Negotiation.AllFormatsAlwaysServed` | Theory/Task3.js:43-48 | a handler supplying all three formatters never answers 406 and runs the formatter of the announced type |
| `Negotiation.FallbackKeepsNegotiatedType` | Theory/Task3.js:43-47 | for every header and formatter set lacking the negotiated formatter but holding a JSON one, the JSON formatter runs under the negotiated Content-Type |
| `Negotiation.HtmlClientOfJsonOnlyHandler` | Theory/Task3.js:34-47 | an instance: the header `text/html` against a JSON-only handler gets the JSON body announced as text/html |
| `Negotiation.RequestedFormat` | Theory/Task3.js:135-146 | the format the middleware records from the header and `?format=`; no contract of its own, its meaning is stated by `Negotiation.RequestedFormatPrecedence` |
| `Negotiation.RequestedFormatPrecedence` | Theory/Task3.js:136-146 | xml exactly when `format=xml` or the header mentions application/xml; html exactly when neither of those holds and `format=html` or the header mentions text/html; json exactly when neither the query nor the header asks for xml or html |
| `Negotiation.SendResponse` | Theory/Task3.js:152-165 | xml is sent as application/xml with the serialised document under the default root, html as text/html with the data as given, and every other or missing format as JSON |
| `Negotiation.SendRequestedFormat` | Theory/Task3.js:168-178 | the format the middleware records is served under that format's content type |
| `Negotiation.RulesAgreeWithoutTextXml` | Theory/Task3.js:135-149 | without a format query and without text/xml in the header, the middleware's format has the content type `res.format` negotiates |
| `Negotiation.TextXmlOnlyNegotiated` | Theory/Task3.js:140 | a text/xml header negotiates XML in `res.format` but JSON in the middleware |
| `Versioning.FirstPresent` | Theory/Task4.js:66-68 | the JavaScript `or` chain over the headers: the result is a non-empty header preceded only by absent or empty ones, or nothing when every header is absent or empty |
| `Versioning.ResolveVersion` | Theory/Task4.js:65-71 | the version recorded on the request is never empty and is one of the two headers or `v1` |
| `Versioning.ResolveVersionPrecedence` | Theory/Task4.js:66-68 | the version is the first non-empty header of api-version and accept-version, else v1, and never empty |
| `Versioning.ProjectV1` | Theory/Task4.js:106-110 | the v1 listing has one entry per product, in order, each with exactly that product's id, nombre and precio |
| `Versioning.ProjectV1Append` | Theory/Task4.js:15-19 | the projection works element by element: it distributes over concatenation |
| `Versioning.GetProductos` | Theory/Task4.js:75-113 | the v2 shape exactly for "v2" and the v3 shape exactly for "v3", both with all products and their count; v3 pagination fixed at page 1, limit 10 with its two links; every other version the v1 projection |
| `Versioning.UnknownVersionsGetV1` | Theory/Task4.js:78-111 | the body's version is the requested one exactly for v2 and v3, and any other version, unknown ones included, gets the v1 body |
| `Versioning.NoHeadersGetV1` | Theory/Task4.js:65-111 | a request with no version header gets the v1 listing |
| `Versioning.UrlV1Productos` | Theory/Task4.js:12-21 | `GET /api/v1/productos` of the URL-versioned app; no contract of its own, see `Versioning.UrlAndHeaderVersioningAgree` |
| `Versioning.UrlV2Productos` | Theory/Task4.js:31-40 | `GET /api/v2/productos` of the URL-versioned app; no contract of its own, see `Versioning.UrlAndHeaderVersioningAgree` |
| `Versioning.UrlAndHeaderVersioningAgree` | Theory/Task4.js:9-40 | the URL-versioned routes answer the same bodies as header dispatch does for the same version |
| `Versioning.Stamp` | Theory/Task4.js:131-135 | a versioned router's middleware sets the request's version and the API-Version header to its own version |
| `Versioning.RouterBody` | Theory/Task4.js:145-157 | a router answers only `/productos`, with a body of its own version |
| `Versioning.Route` | Theory/Task4.js:159-164 | the mounts tried in order, each matching router stamping its version and then answering or passing on; no contract of its own, see `Versioning.AnswerCarriesItsVersion`, `Versioning.HybridRoutes` and `Versioning.UnansweredApiPathsEndAsV2` |
| `Versioning.AnswerCarriesItsVersion` | Theory/Task4.js:127-164 | whenever a mounted router answers, the request's version and the API-Version header equal the version of the body sent |
| `Versioning.HybridRoutes` | Theory/Task4.js:159-164 | for GET requests, /api/v1/productos is answered by the v1 router, while /api/v2/productos and the unversioned /api/productos are answered by the v2 router, each stamped accordingly |
| `Versioning.UnansweredApiPathsEndAsV2` | Theory/Task4.js:160-164 | a path under /api that no router answers is left stamped v2 by the last, unversioned mount, even after a v1 prefix matched |

## Left out

- `api-rest-completa-versionada.js` and `Theory/Task1.js` are not part of this model. The first is JWT, rate limiting, logging, Swagger and webhooks around foreign libraries; the second is prose and pseudo-code.
- Clock: `new Date().toISOString()` is the `now` parameter. A bulk create uses one `now` for all its items, where the source reads the clock once per item.
- Parsing: ids, prices and stock arrive already parsed. `parseInt`/`parseFloat` and NaN are not modelled. Prices are `real`, not IEEE doubles.
- Catalog.ListProducts: requires page and limit to be at least 1 when given. Zero, negative or non-numeric values, which give NaN or infinite page counts, are not modelled.
- Catalog.Trim: trims the ASCII white-space characters only, not the other Unicode spaces that `String.prototype.trim` removes.
- Response plumbing:
  - `res.status/json/send/set` are not modelled;
  - the success messages (`mensaje`) are not modelled;
  - the body of Express's 500 error page is not modelled: the 500 answers carry the TypeError's message instead.
- In-place mutation: PATCH, soft delete and restore mutate the stored object in place. They are modelled as replacing the element at its index. No other reference to the object outlives the request.
- Task3 route handlers that use `res.format` and `sendResponse` are not modelled: `GET /productos/:id`, `GET /productos`, `GET /api/info` and `POST /productos` (`Theory/Task3.js:57-129, 168-219`). Their HTML templates are string interpolation. Their `productos` is undefined in that file. Only the format rules they call are modelled. The `default` key of a formatter object is never consulted by the override, so it has no counterpart.
- XmlSerializer.Value: numbers and booleans become `Scalar` with their interpolated text already computed. Dates and other objects with their own `toString` are not modelled.
- ProductInput: a bulk item that is `null` is not modelled. Reading its `nombre` throws, and the catch records that item's index with the TypeError's message without taking an id (`Theory/Task2.js:223, 239-240`). Every item is a JSON object here.
- CatalogBulk.BulkRejects, Catalog.MissingNameOrPrice: the guards test the price as already parsed by `parseFloat`, while the source tests the raw body value. A string price such as `"0x10"` passes `precio <= 0` in the source and is stored as the number 0. Prices here are numbers in the body.
- Catalog.CategoryOrDefault: the category is a string or absent. In the source `categoria || 'General'` stores any truthy value unchanged, numbers and objects included.
- Versioning.Route: every request is a GET. The routers register only `.get('/productos')`, so in the source a POST to `/api/v1/productos` passes through both routers, is stamped v2 by the last mount and ends in a 404; here it is answered. Mount prefixes are compared case-sensitively, while Express matches them case-insensitively.
- Task4:
  - the POST stubs, the redirect of `/api/productos`, the static `/api/versions` body and the deprecation `Warning` header are not modelled;
  - the header middleware's restriction to paths under `/api` is not modelled;
  - Express's case-insensitive, trailing-slash-tolerant route matching is not modelled: only the exact path `/productos` is matched inside a router.
