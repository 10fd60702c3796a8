/** Values shared by the task service: the stored task, the rows the handlers
    send back, the HTTP responses, and the embedding provider's outcome. */
module TaskModel {

  datatype Option<+T> = None | Some(value: T)

  /** An embedding as returned by the provider (a list of floats). */
  type Vector = seq<real>

  /** One row of the `tasks` table. The embedding column is nullable. */
  datatype Task = Task(title: string, description: string, status: string, embedding: Option<Vector>)

  /** What `RETURNING id, title, description, status` and `SELECT id, title,
      description, status` give back: the stored embedding is never part of it. */
  datatype Row = Row(id: int, title: string, description: string, status: string)

  /** The value of `embedding <-> $1`: a distance, or SQL NULL when the row
      has no embedding. */
  datatype Distance = At(d: real) | Null

  /** One row of a search result: the task's columns and its distance. */
  datatype Hit = Hit(row: Row, distance: Distance)

  datatype Body =
    | Message(text: string)
    | One(row: Row)
    | Many(rows: seq<Row>)
    | Hits(hits: seq<Hit>)
    | Empty

  /** An HTTP status code and the JSON body sent with it. */
  datatype Response = Response(code: int, body: Body)

  const MissingFieldsMessage: string := "Title, description, and status are required"
  const InternalErrorMessage: string := "Internal Server Error"
  const NoFieldsMessage: string := "No fields to update"
  const NotFoundMessage: string := "Task not found"
  const MissingQueryMessage: string := "Query parameter \"q\" is required for search"

  /** The number of rows a search returns (`LIMIT 3`). */
  const SearchLimit: nat := 3

  /** JavaScript truthiness of a request field that is absent or a string:
      `undefined`, `null` and `""` are falsy. */
  predicate Present(field: Option<string>)
  {
    field.Some? && field.value != ""
  }

  /** The POST /tasks validation: title, description and status must all be
      supplied and non-empty. */
  predicate HasRequiredFields(title: Option<string>, description: Option<string>, status: Option<string>)
  {
    Present(title) && Present(description) && Present(status)
  }

  /** getEmbedding: the provider answers with `encoder(text)` when it is
      reachable and answers well; every failure (transport error, non-2xx
      status, bad body) collapses into one generic error, here `None`. */
  function GetEmbedding(encoder: string -> Vector, providerUp: bool, text: string): (e: Option<Vector>)
    ensures e.Some? <==> providerUp
    ensures e.Some? ==> e.value == encoder(text)
  {
    if providerUp then Some(encoder(text)) else None
  }

  /** The columns a handler sends back for the task stored under `id`. */
  function RowOf(id: int, t: Task): Row
  {
    Row(id, t.title, t.description, t.status)
  }

  /** The task's embedding describes its current description. */
  predicate Consistent(t: Task, encoder: string -> Vector)
  {
    t.embedding == Some(encoder(t.description))
  }

  /** The distance a search query computes for a task (`embedding <-> $1`). */
  function DistanceOf(t: Task, query: Vector, distance: (Vector, Vector) -> real): (d: Distance)
    ensures d.Null? <==> t.embedding.None?
  {
    match t.embedding
    case None => Null
    case Some(e) => At(distance(e, query))
  }

  /** `ORDER BY distance ASC`: numbers ascending, NULL after every number. */
  predicate DistLe(a: Distance, b: Distance)
  {
    match (a, b)
    case (At(x), At(y)) => x <= y
    case (At(_), Null) => true
    case (Null, At(_)) => false
    case (Null, Null) => true
  }

  lemma DistLeTransitive(a: Distance, b: Distance, c: Distance)
    requires DistLe(a, b) && DistLe(b, c)
    ensures DistLe(a, c)
  {
  }
}
