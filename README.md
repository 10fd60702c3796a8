# Task service with semantic search: a Dafny model

This project models the task service of a to-do application (`server.js`).
The service keeps a `tasks` table and answers five requests:

- `POST /tasks` creates a task.
- `PUT /tasks/:id` partially updates a task.
- `DELETE /tasks/:id` removes a task.
- `GET /tasks` lists all tasks.
- `GET /tasks/search?q=` returns the three tasks whose embeddings are closest to the embedding of a query text.

Embeddings come from an external embedding provider.

The model has four modules:

- `TaskModel` (`task_model.dfy`) holds the shared types: a table row (`Task`), the columns a handler returns (`Row`, which has no embedding field), and the HTTP `Response` with its status code and JSON body. It also models `getEmbedding` (`GetEmbedding`) and JavaScript truthiness of request fields (`Present`).
- `UpdateBuilder` (`update_builder.dfy`) models the PUT handler's statement builder as an imperative method (`BuildUpdate`). The method grows `updateFields` and `queryParams` and increments `queryIndex`, the same way the handler does. The module also gives the meaning of the resulting `UPDATE tasks SET … WHERE id = $1` statement (`Bind`, `Apply`, `RunUpdate`). Lemmas prove that the built statement performs exactly the intended partial update (`Patched`).
- `Listing` (`listing.dfy`) holds the two read queries as functions. One lists rows in ascending id order. The other is the nearest-neighbour selection `ORDER BY distance ASC LIMIT 3`, written as a stable insertion sort followed by a prefix. Lemmas prove that the result is ordered, is a permutation prefix and is the top k.
- `Server` (`server.dfy`) holds the class `TaskService`. Its field `tasks: map<int, Task>` is the table and `nextId` is the id sequence. The five handlers are its methods: `Create`, `Update` and `Delete` update the table in place; `List` and `Search` only read it.

The embedding provider has two parts in the model:

- a fixed function `encoder: string -> Vector`, the sentence-embedding model behind the provider;
- a per-request flag `providerUp`, which says whether this request's call succeeds.

`getEmbedding` turns every failure into one generic error, so `GetEmbedding` yields `None` when the call fails. `Create`, `Update` and `Search` also return `embedCall`, the text they sent to the provider, if any. This is how the contracts can say that no embedding is requested.

pgvector's `<->` operator is a class constant `distance: (Vector, Vector) -> real`. Only its ordering matters. A row without an embedding has distance SQL `NULL`. Under `ORDER BY … ASC`, PostgreSQL sorts `NULL` after every number, and `DistLe` captures this.

One might expect the service to behave in these ways:

- a task's `status` is one of `todo`, `in_progress` and `done`;
- a `PUT` whose embedding call fails says so in its answer (a degraded success);
- search leaves out rows that have no embedding;
- rows at equal distance are returned in id order.

The code does none of these, and the model follows the code:

- `POST /tasks` accepts any non-empty `status`. The code never checks it against `todo`/`in_progress`/`done`.
- A `PUT` whose embedding call fails answers a plain `200` with the row. There is no degraded-success signal. The new description is written and the old embedding is kept.
- `GET /tasks/search` does not exclude rows that have no embedding. Such rows rank after every row that has one.
- Ties in distance have no tie-break in the code.
- A failed embedding call answers `500 Internal Server Error` for both create and search.

Since every handler keeps the invariant `AllEmbedded` (every stored task has an embedding), a table built only through these handlers never holds a row without an embedding.

## Model

| member | source | states |
|---|---|---|
| `TaskModel.GetEmbedding` | server.js:32-52 | the provider call succeeds exactly when the provider is up, and then yields the encoder's embedding of the text; every failure is one generic error (`None`) |
| `TaskModel.DistanceOf` | server.js:163 | a row's distance to the query is `NULL` exactly when the row has no embedding |
| `Server.TaskService.List` | server.js:55-63 | GET /tasks answers 200 with every stored task exactly once: strictly ascending ids, each row equal to the stored title, description and status of its id, and no embedding |
| `Listing.ListRows` | server.js:57 | `ORDER BY id ASC` yields strictly ascending ids, each a stored row's columns, and covers every stored id below the bound |
| `Listing.IdsBelow` | server.js:57 | the stored ids below a bound, strictly ascending, each one stored and every stored id below the bound included |
| `Server.TaskService.Create` | server.js:66-83 | a missing or empty title, description or status gives 400, changes nothing and requests no embedding; otherwise the description is sent to the provider; a failed embedding gives 500 and inserts nothing; a success inserts exactly the given title, description and status with the description's embedding under a fresh id and answers 201 with that row |
| `UpdateBuilder.BuildUpdate` | server.js:87-116 | `queryParams[0]` is the task id; `queryParams` has one more entry than `updateFields`; placeholders are numbered consecutively from `$2`; `queryIndex` ends one past the last placeholder; the clauses and values are exactly the plan for the supplied fields; the provider is called only for a non-empty description |
| `UpdateBuilder.PlanInColumnOrder` | server.js:95-110 | the SET list names each column at most once, in the fixed order title, status, description, embedding |
| `UpdateBuilder.PlanWellTyped` | server.js:95-110 | every planned clause gives its column a value of that column's type: text for title, status and description, a vector for the embedding |
| `UpdateBuilder.PlanSetsSuppliedFields` | server.js:95-120 | a text column is set exactly when its field was supplied non-empty; the embedding is set exactly when a description was supplied and its embedding was obtained |
| `UpdateBuilder.PlanEmptyIffNoFields` | server.js:95-120 | the SET list is empty exactly when none of title, status and description was supplied non-empty, which is when the handler answers "No fields to update" |
| `UpdateBuilder.BuiltStatementAccepted` | server.js:90-125 | the built statement assigns no column twice, and every bound parameter after the id has a placeholder, so PostgreSQL accepts it |
| `UpdateBuilder.BindRecoversPlan` | server.js:90-110 | every placeholder of the built statement binds to the value planned for its column |
| `UpdateBuilder.PlanMeansPatch` | server.js:95-116 | applying the SET list to a row, clause by clause (the function `Apply`), gives the intended partial update: supplied fields replaced, embedding replaced only by a newly obtained one |
| `UpdateBuilder.BuiltStatementMeaning` | server.js:122-130 | the built UPDATE never fails; it updates only the row with the given id, as intended, and returns that row, or matches nothing and changes nothing when the id is absent |
| `UpdateBuilder.RunUpdate` | server.js:123-126 | executing an UPDATE fails on an empty SET list, a missing id parameter, a column assigned twice or an unused parameter; otherwise it keeps the table's ids, returns at most one row and leaves every row other than the `$1` id unchanged |
| `UpdateBuilder.Bind` | server.js:123-125 | substituting parameters succeeds exactly when every placeholder has a value of its column's type, and then yields one well-typed assignment per clause |
| `UpdateBuilder.StatusOnlyUpdate` | server.js:99-102 | a status-only update changes the status and nothing else: title, description and embedding stay |
| `UpdateBuilder.DescriptionUpdateEmbedding` | server.js:104-115 | a new description is always written; if its embedding is obtained the row's embedding describes the new description, otherwise the old embedding is kept |
| `Server.TaskService.Update` | server.js:86-135 | no non-empty field gives 400 "No fields to update" and no change; a missing id gives 404 and no change; otherwise only that row changes, to the intended partial update, answered with 200; a description is always sent to the provider and its failure degrades instead of failing |
| `Server.TaskService.Delete` | server.js:138-150 | an existing id is removed and no other row changes (204); a missing id gives 404 and no change |
| `Server.DeleteTwice` | server.js:138-150 | deleting the same id twice removes it once; the second delete answers 404 |
| `Server.TaskService.Search` | server.js:153-174 | a missing or empty `q` gives 400 and requests no embedding; a failed embedding gives 500; otherwise every stored embedding has the query embedding's length, so `<->` is always defined, and the answer is 200 with min(3, number of tasks) stored rows, none twice, by non-decreasing distance, none left out nearer than one returned, and with every task embedded no `NULL` distance |
| `Listing.Candidates` | server.js:163-164 | the rows `FROM tasks` with their distance, one per stored id below the bound, ascending by id |
| `Listing.SortByDistancePermutes` | server.js:165 | ordering by distance yields a permutation of the rows: none added, none lost |
| `Listing.SortByDistanceSorts` | server.js:165 | the ordered rows have non-decreasing distance, with `NULL` after every number |
| `Listing.SortByDistanceKeepsDistinct` | server.js:165 | ordering rows with distinct ids keeps the ids distinct |
| `Listing.NearestIsTopK` | server.js:163-166 | `ORDER BY distance ASC LIMIT k` (the function `Nearest`) returns min(k, n) of the rows, sorted, distinct, and no row left out is nearer than a returned one |
| `Listing.SearchRowsAreNearest` | server.js:162-168 | the search query over the table (the function `SearchRows`) has the same properties: each result is a stored row with its distance, and no stored row left out is nearer |

## Left out

- The Express wiring, CORS, the port, `app.listen`, the PostgreSQL pool and its connection test (server.js:1-29, 177-179) are process setup and I/O.
- The HTTP request, JSON handling and logging inside `getEmbedding` are not modelled. Only the outcome is: the encoder's vector, or one generic failure.
- A 2xx provider response without an `embedding` field is not modelled. A successful call always yields a vector.
- The floating-point L2 arithmetic of pgvector's `<->` is not modelled. The distance is an abstract function to `real`.
- The order among rows at equal distance, and among rows with a `NULL` distance, is chosen by PostgreSQL. The model happens to keep id order, but no contract promises any order there.
- Database errors of any kind are not modelled, such as an unreachable store or an id outside the id column's integer range. So the `500` answers of list, update and delete (their `catch` blocks) cannot happen in the model. The `500` of create and search, caused by embedding failure, is modelled.
- The check of vector dimensions by the table's column type is not modelled, because the schema is not part of this model. The model instead fixes one `dimension` for every embedding the provider produces (its sentence-embedding model always yields vectors of one length) and keeps every stored embedding at that length as part of `Valid`.
- `Server.TaskService.Search`: the `500` that `<->` raises for vectors of different lengths (server.js:170-172) is not modelled. Under `Valid`, every stored embedding has the query embedding's length, so this error cannot arise.
- Concurrent interleaving of requests is not modelled. The database makes each statement atomic.
- `parseInt` returning `NaN` for a malformed id is not modelled. Ids are integers.
- Request fields that are non-string JSON values (numbers, booleans, objects, or an array for `q`) are not modelled. A field is absent or a string, and JavaScript truthiness of a string means non-empty.
- The SQL text is not modelled. The SET list `title = $2, …` joined with `", "` is kept as structured clauses (column, placeholder number), and JSON-encoding a vector parameter is kept as the vector itself.
- How PostgreSQL advances the id sequence is not modelled. The model's `nextId` counter hands out fresh, never reused ids, and only a successful insert takes one.
- `src/App.js`, `src/taskitem.js` and `src/api.js` are not part of this model: they are the browser UI and its fetch wrapper. `embedding_service/app.py`, the provider's own service, is not part of this model either.
