# Recipe API request handling, modelled in Dafny

This project models the request handlers of a small recipe-management REST
service (a Flask blueprint in `routes.py`): user registration, login, and
create / list / read / update / delete of recipes, each recipe owned by the
user who created it. Every handler becomes a pure transition

    (store, session, request) -> Step(reply, store', session')

over an abstract store holding the `users` and `recipes` tables (rows in id
order, plus the next id each table hands out) and a session that names a user
id or nobody. A reply is one constructor per distinct response of the source
(`Handlers.Reply`), and `Handlers.Status` maps it to its HTTP status.

What the model follows, from the code:

- The login gate (`@login_required` plus the user loader) admits a request only
  when the session's user id still loads from the store; otherwise 401 and
  nothing changes.
- `register` answers 400 for an empty body, 400 when any of username / email /
  password is missing or empty, 400 when a stored user has the same username
  *or* the same email, and otherwise adds exactly one user (201).
- `login` answers 400 when username or password is missing or empty, and one
  identical 401 for an unknown username and for a wrong password.
- A recipe body is accepted exactly when `title`, `instructions` and
  `ingredients` are present and every ingredient object has `name` and
  `quantity` keys; only key presence is checked.
- get / update / delete check, in order: the lookup, then ownership, then (for
  update only) the body's keys. `update` reads `request.json` after the lookup
  and before ownership, so a body that does not parse as JSON gives 500 even to
  a non-owner; a non-owner whose body parses gets 403 whatever keys the JSON
  object holds. In `create` an unparseable body likewise gives 500.
- **A missing recipe id yields 500, not 404.** `get_or_404` raises `NotFound`
  inside each handler's `try`, and the handler's `except Exception` turns it
  into the generic 500 reply, although the name `get_or_404` promises 404; the
  model follows the code.
- The listing filters with `ilike('%q%')` on the title and on the stored
  ingredients text. The SQLite dialect renders this as
  `lower(col) LIKE lower(pattern)`. The model states LIKE's wildcard semantics
  and proves that, for a query without `%` or `_`, the filter is exactly an
  ASCII-case-insensitive substring test. Pages hold 10 rows, `total_pages` is
  `ceil(total_records / 10)`, and `page` defaults to 1 when absent or not an
  integer. Flask-SQLAlchemy's `paginate` aborts with `NotFound` for a page
  below 1 and for an empty page other than page 1; inside the handler's `try`
  that too becomes the generic 500.

Calls into code that is not modelled are parameters, bundled in `Model.Env`:
password hashing (`set_password`), password verification
(`check_password_hash`) and the JSON text encoding of an ingredients array
(`json.dumps`). `set_password` salts the hash at random; the model takes the
hash as one fixed function.

Files: `optional.dfy` (Option), `model.dfy` (entities, store, lookups, store
invariant), `payload.dfy` (request bodies and validation), `search.dfy` (the
listing filter), `pagination.dfy` (pages), `handlers.dfy` (the seven handlers
and the route dispatcher), `properties.dfy` (properties across calls),
`scenario.dfy` (one client's requests against a fresh database).

## Model

| member | source | states |
|---|---|---|
| Model.FirstIndex | routes.py:34 | `.first()` of a filtered query: the first row satisfying the filter, or none exactly when no row does |
| Model.RecipeAtReplace | routes.py:180-186 | overwriting a recipe row in place changes what its id finds to the new row and what every other id finds not at all |
| Model.RecipeAtRemove | routes.py:204-205 | deleting one row leaves what every other id finds unchanged |
| Model.RecipeAtAppend | routes.py:102-103 | inserting a row leaves what every other id finds unchanged, and a fresh id finds the new row |
| Payload.AllComplete | routes.py:89 | the `all(...)` scan over the ingredients holds exactly when every ingredient has `name` and `quantity` keys |
| Payload.Check | routes.py:85-90 | a recipe body is refused with "missing fields" exactly when one of title, instructions, ingredients is absent; otherwise with "incomplete ingredient" exactly when some ingredient lacks a key; otherwise accepted |
| Model.DumpHidesOnlyOwner | schema.py:4-9 | the recipe schema serialises id, title, description, ingredients and instructions: two rows serialise alike exactly when they differ at most in their owner |
| Search.Matching | routes.py:119-122 | the filtered query keeps exactly the recipes whose title or ingredients text matches, and nothing else |
| Search.MatchingKeepsOrder | routes.py:119-126 | filtering keeps the table's increasing id order |
| Search.LikeExact | routes.py:120-121 | a LIKE pattern without `%` or `_` matches exactly the string it spells |
| Search.LikePercent | routes.py:120 | the pattern `%` matches every string |
| Search.LikePrefix | routes.py:120 | a wildcard-free prefix followed by `%` matches exactly the strings starting with that prefix |
| Search.LikeLeadingPercent | routes.py:120-121 | a leading `%` matches when the rest of the pattern matches some suffix |
| Search.IlikeIsSubstring | routes.py:120-121 | for a query without wildcards, `ilike('%q%')` holds exactly when the lower-cased query occurs in the lower-cased text |
| Search.EmptyQueryMatchesAll | routes.py:115-122 | with the default empty `q` every recipe matches |
| Pagination.TotalPages | routes.py:133 | the page count is the least number of 10-row pages that hold every record, and 0 exactly when there are none |
| Pagination.ServedIsInRange | routes.py:126 | the pages answered with rows are page 1 and the pages up to the page count |
| Pagination.PageItems | routes.py:125-129 | a page holds at most 10 rows, the rows starting at position (page - 1) * 10, in order |
| Pagination.PagesFromIsSuffix | routes.py:125-126 | reading pages from page p on yields the rows from page p's first row on |
| Pagination.PagesPartition | routes.py:125-136 | pages 1 .. total_pages read in order give back every matching row exactly once; each of them is non-empty and every later page is empty |
| Handlers.CurrentUser | routes.py:80 | the login gate admits a session exactly when it names a user that reloads from the store by id, and yields that user |
| Handlers.Register | routes.py:21-48 | empty body, missing or empty credential, and taken username or email each give their own 400 in that order with the store unchanged; otherwise exactly one user is appended with a fresh id and the hashed password (201); the session never changes |
| Handlers.Login | routes.py:56-75 | missing credential gives 400; success (200) only for a stored username whose password verifies, binding the session to that user; an unknown username gives 401; the store never changes |
| Handlers.CreateRecipe | routes.py:79-107 | 401 without a session, then 500 for a body that does not parse, then 400 for each validation failure, all with the store unchanged; otherwise one recipe owned by the session user is appended with a fresh id (201), every other recipe and every user unchanged |
| Handlers.ListRecipes | routes.py:110-142 | 401 without a session; 500 for a page below 1 or an empty page past page 1; otherwise the page's at most 10 matching recipes in order, with total_records, total_pages = ceil(total / 10), current_page and per_page = 10; nothing changes |
| Handlers.GetRecipe | routes.py:145-158 | 401 without a session, 500 for a missing id, 403 for another user's recipe, else the recipe's five schema fields; nothing changes |
| Handlers.UpdateRecipe | routes.py:160-191 | 401, then 500 for a missing id, then 500 for a body that does not parse, then 403 for a non-owner whatever keys the body holds, then the two 400s, all with the store unchanged; the owner's accepted update replaces title, description (empty if absent), ingredients and instructions, keeps id and owner, and leaves every other recipe and every user unchanged (200) |
| Handlers.DeleteRecipe | routes.py:193-208 | 401, then 500 for a missing id, then 403 for a non-owner, with the store unchanged; the owner's delete leaves every other recipe and every user unchanged and shrinks the table by one (200) |
| Handlers.Handle | routes.py:20-208 | every recipe route refuses a request without a session with 401 and no change; only login changes the session; only a successful register, create, update or delete changes the store |
| Properties.RegisterKeepsValid | routes.py:33-48 | registration keeps usernames and emails unique and ids increasing |
| Properties.CreateKeepsValid | routes.py:93-103 | creation keeps recipe ids increasing and every owner a stored user |
| Properties.UpdateKeepsValid | routes.py:180-186 | an update keeps the store invariant (id and owner are not touched) |
| Properties.DeleteKeepsValid | routes.py:204-205 | a delete keeps the store invariant |
| Properties.HandleKeepsValid | routes.py:20-208 | every request keeps the store invariant and keeps the session naming nobody or a stored user |
| Properties.RouteStatuses | routes.py:20-208 | the status codes each route can answer with; the recipe-by-id routes answer 500, never 404, for a missing id, and the listing 500 for an unserved page |
| Properties.FailureChangesNothing | routes.py:20-208 | whatever the route, a 4xx or 5xx reply leaves the store and the session as they were |
| Properties.RegisterRejectsDuplicate | routes.py:33-36 | after a registration, any registration sharing its username or its email is refused with 400 and changes nothing |
| Properties.LoginSucceedsIff | routes.py:63-75 | in a valid store, login succeeds exactly for a stored username whose password verifies, and every other filled-in attempt gets the same 401 with the session unchanged |
| Properties.CreatedRecipeIsOwned | routes.py:95-105 | a created recipe is stored under the fresh id, owned by its creator, reads back as created for the creator and gives 403 to any other signed-in user |
| Properties.CreatedRecipeReadsBody | routes.py:95-101 | the creator reads the new recipe back with the title, instructions and encoded ingredients sent, and an empty description when the body has none |
| Properties.UpdatedRecipeReadsBack | routes.py:180-189 | after an update the owner reads back exactly the updated recipe |
| Properties.UpdateWithoutDescriptionClearsIt | routes.py:180-186 | an update is a full replacement: a body without a description leaves the stored description empty, whatever it was before |
| Properties.DeletedRecipeIsGone | routes.py:196-206 | after a delete the id finds nothing, and reading or deleting it again gives 500 |
| Properties.EmptyQueryListsEverything | routes.py:115-137 | an absent or empty `q` reports every recipe in total_records on every served page |
| Properties.ListingDefaults | routes.py:115-116 | absent `q` and `page` (or a non-integer `page`) answer as `q=` and `page=1`: the first page of every recipe, never the 500 |
| Properties.ListingIsOrdered | routes.py:119-129 | in a valid store the listing is in increasing id order |
| Scenario.RegistersAlice | routes.py:21-48 | registering on a fresh database adds the user with id 1 (201) |
| Scenario.AliceLogsIn | tests/test_routes.py:44-50 | the registered user logs in with her password (200) and the session names her |
| Scenario.AliceCreatesSoup | tests/test_routes.py:53-70 | the signed-in user creates a recipe, stored with id 1 (201) |
| Scenario.AliceReadsSoup | tests/test_routes.py:88-113 | the owner reads her recipe (200) |
| Scenario.RegistersBob | routes.py:33-48 | a second user with a different username and email registers with id 2 (201) |
| Scenario.BobLogsIn | routes.py:66-73 | the second user logs in on the same client; the session now names him |
| Scenario.BobIsRefusedSoup | routes.py:151-153 | another user's recipe is refused with 403 |
| Scenario.AliceLogsBackIn | routes.py:66-73 | logging in again rebinds the session to the first user |
| Scenario.AliceDeletesSoup | tests/test_routes.py:142-159 | the owner deletes her recipe (200) and the table is empty |
| Scenario.SoupIsGone | routes.py:147-158 | reading the deleted id gives the generic 500 reply |

## Left out

- JSON body parsing beyond parses / does not parse in the recipe handlers: in
  `register` and `login` the read sits outside the `try`, so Flask answers
  there, and the forms are modelled as parsed; a JSON value that is not an
  object, a `request.json` of `None`, non-string values,
  `null` values, an `ingredients` value that is not a list, and ingredient
  elements that are not objects. Bodies are modelled as the keys the handlers
  read, with string values.
- Persistence failures: the commit that fails and is rolled back in `register`
  (its 500 reply with details), and a failing commit in create, update or
  delete. The store is a value and every write succeeds.
- The race between the uniqueness pre-check in `register` and the insert;
  requests are handled one at a time.
- Id assignment: a per-table counter stands for the database's id choice. The
  model relies on each new id exceeding every stored id (SQLite's
  max(rowid)+1 and AUTOINCREMENT both give that), since rows are kept in id
  order and the unordered listing query reads them in that order; whether a
  deleted highest id is handed out again depends on the table definition,
  which is not part of this model.
- Pagination follows Flask-SQLAlchemy's `paginate` with its default
  `error_out`; the library itself is not part of this model.
- The listing query has no `ORDER BY`; the model lists in table order, which
  under the store invariant is increasing id order.
- Case folding is SQLite's `lower()`, which changes only ASCII letters; a
  database with Unicode case folding would match more.
- The exact text of `json.dumps` for ingredients (`Env.encode`), password
  hashing (`Env.hash`) and password verification (`Env.verify`) are
  parameters, not definitions.
- Model.Env: `hash` is one deterministic function, while `set_password` draws
  a random salt, so two registrations with the same password store different
  hashes in the source; nothing in the model compares stored hashes.
- Response message wording, the error envelope's `details` field, and the three
  different 403 messages; replies are distinguished by kind and status only.
- Flask, Flask-Login and HTTP plumbing: cookies, `app.py` start-up, method
  routing, and the `<int:...>` URL converter (non-integer ids never reach a
  handler).
- `UserSchema` is never dumped by the handlers; `RecipeSchema`'s five dumped
  fields are `Model.RecipeView`.
- `tests/test_routes.py:30-42` posts to `/api/users`, a route the blueprint
  does not define; it is not evidence for `register`.
