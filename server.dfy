/** The task service of server.js: the `tasks` table, updated in place by the
    POST, PUT and DELETE handlers and read by the two GET handlers. The
    embedding provider is the deterministic `encoder` together with a
    per-request flag `providerUp` saying whether the call succeeds; the
    create, update and search handlers also return `embedCall`, the text
    they sent to the provider, if any. */
module Server {
  import opened TaskModel
  import opened UpdateBuilder
  import opened Listing

  class TaskService {
    /** The embedding model behind the provider. */
    const encoder: string -> Vector
    /** pgvector's `<->` operator, defined on vectors of equal length. */
    const distance: (Vector, Vector) -> real
    /** The number of components of every embedding the model produces. */
    const dimension: nat
    /** The `tasks` table, keyed by id. */
    var tasks: map<int, Task>
    /** The next value of the table's id sequence. */
    var nextId: nat

    /** Ids come from the sequence, and every embedding, stored or produced,
        has `dimension` components, so `<->` never meets vectors of different
        lengths. */
    ghost predicate Valid()
      reads this
    {
      && 1 <= nextId
      && (forall id :: id in tasks ==> 1 <= id < nextId)
      && (forall text :: |encoder(text)| == dimension)
      && (forall id :: id in tasks && tasks[id].embedding.Some? ==> |tasks[id].embedding.value| == dimension)
    }

    /** Every stored task has an embedding: what makes every task findable by search. */
    ghost predicate AllEmbedded()
      reads this
    {
      forall id :: id in tasks ==> tasks[id].embedding.Some?
    }

    constructor (encoder: string -> Vector, distance: (Vector, Vector) -> real, dimension: nat)
      requires forall text :: |encoder(text)| == dimension
      ensures Valid() && AllEmbedded()
      ensures tasks == map[] && nextId == 1
      ensures this.encoder == encoder && this.distance == distance && this.dimension == dimension
    {
      this.encoder := encoder;
      this.distance := distance;
      this.dimension := dimension;
      tasks := map[];
      nextId := 1;
    }

    /** GET /tasks: every task, ascending by id, without its embedding. */
    method List() returns (resp: Response)
      requires Valid()
      ensures resp.code == 200 && resp.body.Many?
      ensures var rows := resp.body.rows;
              && |rows| == |tasks|
              && (forall i, j :: 0 <= i < j < |rows| ==> rows[i].id < rows[j].id)
              && (forall i :: 0 <= i < |rows| ==> rows[i].id in tasks && rows[i] == RowOf(rows[i].id, tasks[rows[i].id]))
              && (forall id :: id in tasks ==> exists i :: 0 <= i < |rows| && rows[i].id == id)
    {
      AllIdsBelow(tasks, nextId);
      resp := Response(200, Many(ListRows(tasks, nextId)));
    }

    /** POST /tasks: validates, requests the description's embedding, inserts. */
    method Create(title: Option<string>, description: Option<string>, status: Option<string>, providerUp: bool)
      returns (resp: Response, embedCall: Option<string>)
      requires Valid()
      modifies this
      ensures Valid()
      ensures !HasRequiredFields(title, description, status) ==>
                resp == Response(400, Message(MissingFieldsMessage)) && embedCall == None
                && tasks == old(tasks) && nextId == old(nextId)
      ensures HasRequiredFields(title, description, status) ==> embedCall == Some(description.value)
      ensures HasRequiredFields(title, description, status) && !providerUp ==>
                resp == Response(500, Message(InternalErrorMessage))
                && tasks == old(tasks) && nextId == old(nextId)
      ensures HasRequiredFields(title, description, status) && providerUp ==>
                var t := Task(title.value, description.value, status.value, Some(encoder(description.value)));
                && old(nextId) !in old(tasks)
                && tasks == old(tasks)[old(nextId) := t]
                && nextId == old(nextId) + 1
                && resp == Response(201, One(RowOf(old(nextId), t)))
                && Consistent(t, encoder)
      ensures old(AllEmbedded()) ==> AllEmbedded()
    {
      embedCall := None;
      if !HasRequiredFields(title, description, status) {
        resp := Response(400, Message(MissingFieldsMessage));
        return;
      }
      embedCall := Some(description.value);
      var embedding := GetEmbedding(encoder, providerUp, description.value);
      if embedding.None? {
        resp := Response(500, Message(InternalErrorMessage));
        return;
      }
      var id := nextId;
      var t := Task(title.value, description.value, status.value, embedding);
      tasks := tasks[id := t];
      nextId := nextId + 1;
      resp := Response(201, One(RowOf(id, t)));
    }

    /** PUT /tasks/:id: builds the partial update, runs it, reports 404 when
        no row matched. A failed embedding does not fail the request. */
    method Update(id: int, title: Option<string>, description: Option<string>, status: Option<string>,
                  providerUp: bool)
      returns (resp: Response, embedCall: Option<string>)
      requires Valid()
      modifies this`tasks
      ensures Valid()
      ensures embedCall == if Present(description) then Some(description.value) else None
      ensures !Present(title) && !Present(status) && !Present(description) ==>
                resp == Response(400, Message(NoFieldsMessage)) && tasks == old(tasks)
      ensures (Present(title) || Present(status) || Present(description)) && id !in old(tasks) ==>
                resp == Response(404, Message(NotFoundMessage)) && tasks == old(tasks)
      ensures (Present(title) || Present(status) || Present(description)) && id in old(tasks) ==>
                var embedding := if Present(description) then GetEmbedding(encoder, providerUp, description.value) else None;
                var t := Patched(old(tasks)[id], title, status, description, embedding);
                tasks == old(tasks)[id := t] && resp == Response(200, One(RowOf(id, t)))
      ensures id in old(tasks) && Present(description) ==>
                tasks[id].description == description.value
                && (providerUp ==> Consistent(tasks[id], encoder))
                && (!providerUp ==> tasks[id].embedding == old(tasks)[id].embedding)
      ensures id in old(tasks) && !Present(description) ==>
                tasks[id].description == old(tasks)[id].description
                && tasks[id].embedding == old(tasks)[id].embedding
      ensures old(AllEmbedded()) ==> AllEmbedded()
    {
      var updateFields, queryParams, queryIndex, call := BuildUpdate(id, title, status, description, encoder, providerUp);
      embedCall := call;
      ghost var embedding := if Present(description) then GetEmbedding(encoder, providerUp, description.value) else None;
      PlanSetsSuppliedFields(title, status, description, embedding);
      PlanEmptyIffNoFields(title, status, description, embedding);
      if |updateFields| == 0 {
        resp := Response(400, Message(NoFieldsMessage));
        return;
      }
      BuiltStatementMeaning(tasks, id, title, status, description, embedding);
      var outcome := RunUpdate(tasks, updateFields, queryParams);
      tasks := outcome.tasks;
      if |outcome.returning| == 0 {
        resp := Response(404, Message(NotFoundMessage));
        return;
      }
      resp := Response(200, One(outcome.returning[0]));
    }

    /** DELETE /tasks/:id: removes the row, or reports 404. */
    method Delete(id: int) returns (resp: Response)
      requires Valid()
      modifies this`tasks
      ensures Valid()
      ensures id in old(tasks) ==> tasks == old(tasks) - {id} && resp == Response(204, Empty)
      ensures id !in old(tasks) ==> tasks == old(tasks) && resp == Response(404, Message(NotFoundMessage))
      ensures old(AllEmbedded()) ==> AllEmbedded()
    {
      if id !in tasks {
        resp := Response(404, Message(NotFoundMessage));
        return;
      }
      tasks := tasks - {id};
      resp := Response(204, Empty);
    }

    /** GET /tasks/search: the three rows nearest to the query's embedding. */
    method Search(q: Option<string>, providerUp: bool) returns (resp: Response, embedCall: Option<string>)
      requires Valid()
      ensures !Present(q) ==> resp == Response(400, Message(MissingQueryMessage)) && embedCall == None
      ensures Present(q) ==> embedCall == Some(q.value)
      ensures Present(q) && !providerUp ==> resp == Response(500, Message(InternalErrorMessage))
      ensures Present(q) && providerUp ==>
                resp.code == 200 && resp.body.Hits?
                && var r := resp.body.hits;
                   var query := encoder(q.value);
                   && |r| == (if |tasks| < SearchLimit then |tasks| else SearchLimit)
                   && (forall i :: 0 <= i < |r| ==> IsHitOf(r[i], tasks, query, distance))
                   && DistinctIds(r)
                   && Sorted(r)
                   && (forall id, y :: id in tasks && y in r && id !in HitIds(r) ==>
                         DistLe(y.distance, DistanceOf(tasks[id], query, distance)))
      ensures Present(q) && providerUp ==>
                forall id :: id in tasks && tasks[id].embedding.Some? ==>
                  |tasks[id].embedding.value| == |encoder(q.value)|
      ensures Present(q) && providerUp && AllEmbedded() ==>
                forall h :: h in resp.body.hits ==> h.distance.At?
    {
      embedCall := None;
      if !Present(q) {
        resp := Response(400, Message(MissingQueryMessage));
        return;
      }
      embedCall := Some(q.value);
      var queryEmbedding := GetEmbedding(encoder, providerUp, q.value);
      if queryEmbedding.None? {
        resp := Response(500, Message(InternalErrorMessage));
        return;
      }
      var hits := SearchRows(tasks, nextId, queryEmbedding.value, distance, SearchLimit);
      SearchRowsAreNearest(tasks, nextId, queryEmbedding.value, distance, SearchLimit);
      resp := Response(200, Hits(hits));
    }
  }

  /** Deleting twice: the second delete finds nothing and changes nothing. */
  method DeleteTwice(service: TaskService, id: int) returns (first: Response, second: Response)
    requires service.Valid()
    modifies service`tasks
    ensures service.Valid()
    ensures service.tasks == old(service.tasks) - {id}
    ensures first.code == (if id in old(service.tasks) then 204 else 404)
    ensures second == Response(404, Message(NotFoundMessage))
  {
    first := service.Delete(id);
    second := service.Delete(id);
  }
}
