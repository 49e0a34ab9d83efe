# Products API: a Dafny model of the in-memory product store

The service keeps its products in one module-level array (`products` in
`server.js`). Its request handlers create, update, delete and look up
products in that array. They also filter it by category, cut a page out of
it, search it by name and count it per category. Two middleware stages
guard some routes: an API-key check and a type check of the product body.

This project models that core:

- `products.dfy`: the product record, the draft a client sends, the responses (status plus JSON body, or no response at all), the three seeded products and the invariant that ids are unique.
- `middleware.dfy`: the parsed request body as values that `typeof` can tell apart, the API-key stage and the validation stage.
- `lookup.dfy`: `findIndex` and `find` by id, the get-by-id handler, `splice`, and what a lookup sees after a create, an update or a delete.
- `sequences.dfy`: JavaScript's `filter` and `slice`, with the facts the handlers rely on.
- `queries.dfy`: the category filter, pagination, search and stats handlers.
- `store.dfy`: the store as a class with a `products` field. Its create, update and delete methods change the field in place. `Post`, `Put` and `Remove` put the declared middleware stage in front of each handler.

Each handler body is modelled by itself, as the source writes it. Two points
about the source shape what the model states:

- The pagination handler reports `total` as the length of the whole store. It does not apply the category filter.
- The router's update handler answers an absent id with an `error` key, where the other handlers use `message`.

The three handlers that do not do what their route promises are listed under "## Findings".

## Model

| member | source | states |
|---|---|---|
| `Products.Attach` | server.js:60-67 | the record built for a request keeps the given id and takes exactly the body's five fields |
| `Middleware.TypeOf` | server.js:124-128 | `typeof` is "string", "number" and "boolean" exactly for strings, numbers and booleans, "object" exactly for `null` and nested values, "undefined" exactly for a missing key |
| `Middleware.Authenticate` | server.js:113-119 | the request goes on exactly when the `x-api-key` header is present and equals "1234567"; otherwise the answer is 401 `{message: "Unauthorized-Invalid API key"}` |
| `Middleware.ValidateProduct` | server.js:121-134 | the request goes on exactly when the body is the encoding of some product draft (name, description and category strings, price a number, inStock a boolean); otherwise the answer is 400 `{error: "Invalid Product data"}` |
| `Middleware.Decode` | server.js:122 | the fields read from a validated body re-encode to that body |
| `Middleware.DecodeEncode` | server.js:121-134 | every well-typed draft passes validation and reaches the handler unchanged |
| `Lookup.IndexOf` | server.js:74 | -1 exactly when no product has the id; otherwise the position of the first product with the id |
| `Lookup.Find` | server.js:52 | nothing exactly when no product has the id; otherwise the first stored product with that id (no earlier product has it) |
| `Lookup.GetById` | server.js:51-56 | as written: 404 `{message: "Product not found"}` when the id is absent, and no response at all exactly when it is present |
| `Lookup.GetByIdIntended` | server.js:51-56 | 404 when the id is absent; otherwise 200 with the first stored product carrying the id |
| `Lookup.RemoveAt` | server.js:169 | `splice(k, 1)`: one element shorter, the elements before k unchanged, those after k shifted down by one |
| `Lookup.RemoveKeepsUnique` | server.js:169 | removing a product keeps ids unique |
| `Lookup.FindAfterAppend` | server.js:68 | after a product with a fresh id is pushed, lookup of its id finds it, and every other id is looked up as before |
| `Lookup.FindAfterReplace` | server.js:79-86 | after the in-place update, lookup of the id finds the replacement |
| `Lookup.DeleteThenGetIsNotFound` | server.js:164-171 | in a store with unique ids, deleting the product with an id makes get-by-id answer 404 for that id |
| `Lookup.CreateThenGet` | server.js:59-70 | fetching a just-created product by its id returns exactly the created product |
| `Sequences.Filter` | server.js:201 | the result is no longer than the input and holds exactly the input's elements that the test accepts |
| `Sequences.FilterAppend` | server.js:201 | filtering a concatenation is the concatenation of the filtered parts, so input order is kept |
| `Sequences.FilterCounts` | server.js:201 | each accepted element appears as often as in the input, and rejected elements do not appear |
| `Sequences.FilterSame` | server.js:228 | two tests that agree on every element select the same result |
| `Sequences.Slice` | server.js:212 | `slice` for non-negative bounds is the window between the bounds, cut at the end; a window that does not pass its start is empty |
| `Queries.FilterByCategory` | server.js:201 | holds exactly the stored products whose category equals the value |
| `Queries.ListByCategory` | server.js:198-205 | a non-empty `category` gives 200 with the store filtered by that category (so, by `FilterByCategoryExact`, exactly its products, in store order, each as often as stored); a missing or empty one gives 200 with the whole store |
| `Queries.FilterByCategoryExact` | server.js:201 | each product of the category is kept as often as it is stored, others are dropped, and store order is kept across any split |
| `Queries.ListPage` | server.js:208-220 | always 200; `total` is the store length; `page` and `limit` default to 1 and 10; the page is never longer than the store |
| `Queries.PageWindow` | server.js:209-212 | for page at least 1 and limit at least 0 the page is the store from `(page-1)*limit` for `limit` items, cut at the end; it has at most `limit` items and is empty once the start passes the end |
| `Queries.DefaultPage` | server.js:209 | without query values the page is the first ten products |
| `Queries.SecondPageOfThree` | server.js:208-220 | page 2 with limit 1 on three products is exactly the second product, with total 3 |
| `Queries.Lower` | server.js:228 | `toLowerCase` on ASCII: the length is kept, no upper-case letter is left, every character that is not an upper-case letter is kept, and each upper-case letter becomes the lower-case letter at the same alphabet position |
| `Queries.LowerIdempotent` | server.js:228 | folding case twice is folding it once |
| `Queries.Includes` | server.js:228 | `includes` is true exactly when the needle occurs at some position of the text |
| `Queries.MatchesName` | server.js:228 | the search's callback accepts a product exactly when the lower-cased query occurs at some position of its lower-cased name |
| `Queries.Search` | server.js:223-230 | a missing or empty `query` gives 400 `{message: "Query parameter is required"}`; otherwise 200 with the store filtered by the name test, so exactly the products whose lower-cased name contains the lower-cased query, in store order |
| `Queries.SearchIgnoresQueryCase` | server.js:228 | queries that differ only in case get the same answer |
| `Queries.PhoneFindsSmartphone` | server.js:228 | the query "phone" matches the seeded name "Smartphone" |
| `Queries.Bump` | server.js:236-237 | one step of the fold adds the product's category as a key if missing; its count becomes the previous count, or 0 when absent, plus one; every other count is unchanged |
| `Queries.CountInto` | server.js:235-238 | the fold never removes a key or lowers a count, every key it adds has a count of at least 1, and every product's category ends up as a key |
| `Queries.Stats` | server.js:235-238 | every count is at least 1 and every product's category is a key |
| `Queries.StatsHandler` | server.js:234-241 | the stats route always answers 200; the keys are exactly the store's categories, each count is the number of products of that category, and the counts add up to the store length |
| `Queries.CountIntoAt` | server.js:235-238 | the fold adds to each category of the accumulator the number of products of that category, and adds keys only for categories present |
| `Queries.StatsCounts` | server.js:234-241 | the keys are exactly the categories in the store, and each count equals the size of that category's filter and is at least 1 |
| `Queries.TotalBump` | server.js:236 | one step of the fold adds one to the sum of the counts |
| `Queries.StatsTotal` | server.js:234-241 | the counts add up to the number of products |
| `Queries.SeedStats` | server.js:16-39 | on the three seeded products the stats are `{electronics: 2, kitchen: 1}` |
| `Products.Seed` | server.js:16-39 | three products carrying the three given ids in order; distinct ids give a store with unique ids |
| `Store.ProductStore.constructor` | server.js:16-39 | the store starts with the three seeded products under distinct ids |
| `Store.ProductStore.Create` | server.js:59-70 | pushes exactly one product, with the fresh id and the body's fields; earlier products are unchanged; ids stay unique; the answer is 201 with the pushed product |
| `Store.ProductStore.Update` | server.js:73-89 | absent id: 404 and no change; otherwise only the first product with the id is replaced, keeping its id and taking the body's five fields; length and every other position are unchanged; the answer is 200 with the new record |
| `Store.ProductStore.Delete` | server.js:164-171 | absent id: 404 and no change; otherwise exactly the first product with the id is removed and the others keep their order; the answer is 204 with an empty body |
| `Store.ProductStore.Post` | server.js:142-153 | an ill-typed body gets 400 and leaves the store unchanged; a valid one is created as by `Create` |
| `Store.ProductStore.Put` | server.js:155-162 | the corrected router update: the validation stage of server.js:155 runs first, so an ill-typed body gets 400 and leaves the store unchanged; an absent id gets 404 `{error: "Product not found"}` as at server.js:158; otherwise the update of server.js:79-88 is applied as by `Update` |
| `Store.ProductStore.Remove` | server.js:164-171 | a wrong or missing API key gets 401 and leaves the store unchanged; with the key, the delete works as `Delete` |
| `Store.ProductStore.DeleteAsWritten` | server.js:92-99 | as written: 404 for an absent id; for a present id no response; the store never changes |
| `Store.ProductStore.PutAsWritten` | server.js:155-162 | as written: 400 for an ill-typed body; 404 `{error: "Product not found"}` for an absent id; for a present id no response; the store never changes |
| `Store.CreateDeleteScenario` | server.js:164-171 | a created product is found by id; the as-written delete leaves it in place; the router's delete with the key removes it, get-by-id then answers 404, and the store is back to what it was |

## Left out

- Process start-up, `app.listen` and the `/` route (server.js:1-12): network I/O.
- JSON body parsing (server.js:42, server.js:110): a library call. The model starts from the parsed body. Only the five keys that are read from it are modelled.
- The logging stages (server.js:103-107, server.js:138-141, logger.js): console output only. The stage at server.js:104 uses plain quotes, so it would print its template text literally.
- The error-handling stage (server.js:175-178) and the error classes (server.js:181-194): console output plus a constant 500, and the classes are never thrown.
- Id generation (server.js:15, server.js:17, server.js:61): a foreign library. The fresh id is a parameter. Its freshness is a precondition of `Store.ProductStore.Create` and `Store.ProductStore.Post`.
- Route dispatch and mounting are library behaviour and are not modelled. Each handler body is modelled by itself. This hides four facts about the running service:
  - the list-all handler (server.js:46-48) shadows the category and pagination handlers (server.js:198, server.js:208);
  - the `/:id` route (server.js:51) shadows search and stats;
  - `router` is never mounted (server.js:137);
  - the router's create path lacks its leading slash (server.js:142).
  The list-all handler is `Queries.ListByCategory` without a category.
- Unvalidated writes: the mounted create and update (server.js:59-70, server.js:73-89) run without `validateProduct`. A client could therefore store ill-typed fields. The model's product fields are typed. So `Create` and `Update` take a typed draft, and `Post`/`Put` put the validation stage in front of them.
- JavaScript numbers: `price` is kept as an opaque number and is never computed with. `page` and `limit` are taken as already-read integers. Non-numeric, fractional or oddly written query values are not modelled: these give `NaN`, and there `parseInt` and numeric coercion disagree.
- A query key given more than once arrives as an array. It is not modelled: `category`, `query` and the API-key header are each a single optional string.
- `toLowerCase` is modelled on ASCII letters only. Unicode case mapping is not.
- Category names such as "toString", "constructor" or `__proto__`: JavaScript looks these up on the accumulator's prototype. The stats accumulator is modelled as a plain map.
- Concurrency: requests run one at a time, each to completion.

## Findings

| source | as written | input that shows it | evidently intended | confidence | as-written member | corrected member |
|---|---|---|---|---|---|---|
| server.js:51-56 | when the product is found the handler returns without sending anything | GET `/api/products/<id>` for a stored id: no response | 200 with the product | not executed | `Lookup.GetById` | `Lookup.GetByIdIntended` |
| server.js:92-99 | `splice` and the 204 reply follow the `return` inside the not-found branch | DELETE `/api/products/<id>` for a stored id: no response, and the product stays | remove the product and answer 204 | not executed | `Store.ProductStore.DeleteAsWritten` | `Store.ProductStore.Delete` |
| server.js:155-162 | the router's update body is a copy of delete code, placed after the `return` | PUT `/api/products/<id>` for a stored id with a valid body: no response, and nothing changes | replace the five fields, keep the id, answer 200 | not executed | `Store.ProductStore.PutAsWritten` | `Store.ProductStore.Put` |
