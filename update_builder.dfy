/** The PUT /tasks/:id handler's statement builder and the meaning of the
    UPDATE statement it builds. The handler collects `column = $n` clauses in
    `updateFields` and their values in `queryParams` (whose first entry is the
    task id, bound to `$1` in `WHERE id = $1`), numbering placeholders with
    the counter `queryIndex`. */
module UpdateBuilder {
  import opened TaskModel

  datatype Column = TitleColumn | StatusColumn | DescriptionColumn | EmbeddingColumn

  /** The position of a column in the fixed order the handler adds clauses in. */
  function Rank(c: Column): nat
  {
    match c
    case TitleColumn => 0
    case StatusColumn => 1
    case DescriptionColumn => 2
    case EmbeddingColumn => 3
  }

  /** One entry of `queryParams`: the task id, a text, or a vector (sent as
      its JSON text, which pgvector parses back). */
  datatype Param = IdParam(id: int) | TextParam(text: string) | VectorParam(vector: Vector)

  /** One entry of `updateFields`: the clause `column = $placeholder`. */
  datatype SetClause = SetClause(column: Column, placeholder: int)

  /** A column together with the value it is to be set to. */
  datatype Assignment = Assignment(column: Column, value: Param)

  /** The text columns take text, the embedding column takes a vector. */
  predicate WellTyped(a: Assignment)
  {
    if a.column == EmbeddingColumn then a.value.VectorParam? else a.value.TextParam?
  }

  /** The assignments a PUT request asks for: a clause per non-empty field,
      and one for the embedding when a description was given and the
      provider produced its embedding. */
  function PlanUpdate(title: Option<string>, status: Option<string>, description: Option<string>,
                      embedding: Option<Vector>): seq<Assignment>
  {
    TitlePart(title) + StatusPart(status) + DescriptionPart(description) + EmbeddingPart(description, embedding)
  }

  function TitlePart(title: Option<string>): seq<Assignment>
  {
    if Present(title) then [Assignment(TitleColumn, TextParam(title.value))] else []
  }

  function StatusPart(status: Option<string>): seq<Assignment>
  {
    if Present(status) then [Assignment(StatusColumn, TextParam(status.value))] else []
  }

  function DescriptionPart(description: Option<string>): seq<Assignment>
  {
    if Present(description) then [Assignment(DescriptionColumn, TextParam(description.value))] else []
  }

  function EmbeddingPart(description: Option<string>, embedding: Option<Vector>): seq<Assignment>
  {
    if Present(description) && embedding.Some? then [Assignment(EmbeddingColumn, VectorParam(embedding.value))] else []
  }

  /** Columns come in the fixed order title, status, description, embedding,
      each at most once. */
  ghost predicate InColumnOrder(plan: seq<Assignment>)
  {
    forall i, j :: 0 <= i < j < |plan| ==> Rank(plan[i].column) < Rank(plan[j].column)
  }

  /** The plan has a clause for column `c`. */
  predicate Sets(plan: seq<Assignment>, c: Column)
  {
    exists a :: a in plan && a.column == c
  }

  /** The SET clauses for a plan, with placeholders `$2`, `$3`, ... */
  function Clauses(plan: seq<Assignment>): seq<SetClause>
  {
    seq(|plan|, i requires 0 <= i < |plan| => SetClause(plan[i].column, i + 2))
  }

  /** The values for a plan's placeholders, in placeholder order. */
  function Values(plan: seq<Assignment>): seq<Param>
  {
    seq(|plan|, i requires 0 <= i < |plan| => plan[i].value)
  }

  /** The partial update a PUT request means: every supplied field replaces
      the stored one; the embedding is replaced only by the fresh embedding
      of a supplied description, otherwise the stored one is kept. */
  function Patched(t: Task, title: Option<string>, status: Option<string>, description: Option<string>,
                   embedding: Option<Vector>): Task
  {
    Task(if Present(title) then title.value else t.title,
         if Present(description) then description.value else t.description,
         if Present(status) then status.value else t.status,
         if Present(description) && embedding.Some? then embedding else t.embedding)
  }

  // ---------------------------------------------------------------------
  // What the database does with `UPDATE tasks SET <clauses> WHERE id = $1`.

  /** Placeholder `$n` stands for `params[n - 1]`, and must fit its column. */
  predicate Binds(c: SetClause, params: seq<Param>)
  {
    1 <= c.placeholder <= |params| && WellTyped(Assignment(c.column, params[c.placeholder - 1]))
  }

  /** Substitutes the parameters into the clauses; `None` is a statement the
      database rejects (a placeholder without a value, or a value of the
      wrong type). */
  function Bind(clauses: seq<SetClause>, params: seq<Param>): (r: Option<seq<Assignment>>)
    ensures r.Some? <==> forall i :: 0 <= i < |clauses| ==> Binds(clauses[i], params)
    ensures r.Some? ==> |r.value| == |clauses| && forall i :: 0 <= i < |r.value| ==> WellTyped(r.value[i])
  {
    if forall i :: 0 <= i < |clauses| ==> Binds(clauses[i], params) then
      Some(seq(|clauses|, i requires 0 <= i < |clauses| =>
                 Assignment(clauses[i].column, params[clauses[i].placeholder - 1])))
    else
      None
  }

  /** Sets one column of a row. */
  function Assign(t: Task, a: Assignment): Task
    requires WellTyped(a)
  {
    match a.column
    case TitleColumn => t.(title := a.value.text)
    case StatusColumn => t.(status := a.value.text)
    case DescriptionColumn => t.(description := a.value.text)
    case EmbeddingColumn => t.(embedding := Some(a.value.vector))
  }

  /** Applies the assignments of a SET list to a row, left to right. */
  function Apply(t: Task, plan: seq<Assignment>): Task
    requires forall i :: 0 <= i < |plan| ==> WellTyped(plan[i])
    decreases |plan|
  {
    if plan == [] then t else Apply(Assign(t, plan[0]), plan[1..])
  }

  datatype UpdateOutcome =
    | StatementError
    | Updated(tasks: map<int, Task>, returning: seq<Row>)

  /** No column is named twice in the SET list. */
  predicate DistinctColumns(clauses: seq<SetClause>)
  {
    forall i, j :: 0 <= i < j < |clauses| ==> clauses[i].column != clauses[j].column
  }

  /** Some clause uses placeholder `$k`. */
  predicate Referenced(clauses: seq<SetClause>, k: int)
  {
    exists i :: 0 <= i < |clauses| && clauses[i].placeholder == k
  }

  /** Runs `UPDATE tasks SET <clauses> WHERE id = $1 RETURNING id, title,
      description, status`. An empty SET list, a missing id parameter, a
      column assigned twice, a bound parameter that no placeholder uses, or
      a placeholder that does not bind is an error; a missing id matches no row. */
  function RunUpdate(tasks: map<int, Task>, clauses: seq<SetClause>, params: seq<Param>): (r: UpdateOutcome)
    ensures r.Updated? ==> r.tasks.Keys == tasks.Keys && |r.returning| <= 1
    ensures r.Updated? ==> params != [] && params[0].IdParam?
    ensures r.Updated? ==> clauses != [] && DistinctColumns(clauses)
    ensures r.Updated? ==> forall k :: 2 <= k <= |params| ==> Referenced(clauses, k)
    ensures r.Updated? ==> forall id :: id in tasks && id != params[0].id ==> r.tasks[id] == tasks[id]
  {
    if clauses == [] || params == [] || !params[0].IdParam? then StatementError
    else if !DistinctColumns(clauses) then StatementError
    else if exists k :: 2 <= k <= |params| && !Referenced(clauses, k) then StatementError
    else match Bind(clauses, params)
      case None => StatementError
      case Some(plan) =>
        var id := params[0].id;
        if id in tasks then
          var t := Apply(tasks[id], plan);
          Updated(tasks[id := t], [RowOf(id, t)])
        else
          Updated(tasks, [])
  }

  // ---------------------------------------------------------------------
  // The builder itself.

  /** Builds the SET list and the parameters of the UPDATE statement,
      requesting an embedding for a supplied description. `embedCall` is the
      text sent to the embedding provider, if any. */
  method BuildUpdate(taskId: int, title: Option<string>, status: Option<string>, description: Option<string>,
                     encoder: string -> Vector, providerUp: bool)
    returns (updateFields: seq<SetClause>, queryParams: seq<Param>, queryIndex: int, embedCall: Option<string>)
    ensures |queryParams| == |updateFields| + 1 && queryParams[0] == IdParam(taskId)
    ensures queryIndex == |updateFields| + 2
    ensures forall i :: 0 <= i < |updateFields| ==> updateFields[i].placeholder == i + 2
    ensures embedCall == if Present(description) then Some(description.value) else None
    ensures var embedding := if Present(description) then GetEmbedding(encoder, providerUp, description.value) else None;
            var plan := PlanUpdate(title, status, description, embedding);
            updateFields == Clauses(plan) && queryParams == [IdParam(taskId)] + Values(plan)
  {
    updateFields := [];
    queryParams := [IdParam(taskId)];
    queryIndex := 2;
    embedCall := None;
    var embedding: Option<Vector> := None;
    ghost var plan: seq<Assignment> := [];

    if Present(title) {
      updateFields := updateFields + [SetClause(TitleColumn, queryIndex)];
      queryIndex := queryIndex + 1;
      queryParams := queryParams + [TextParam(title.value)];
      ExtendPlan(taskId, plan, Assignment(TitleColumn, TextParam(title.value)));
      plan := plan + [Assignment(TitleColumn, TextParam(title.value))];
    }
    assert updateFields == Clauses(plan) && queryParams == [IdParam(taskId)] + Values(plan);
    assert queryIndex == |plan| + 2;
    assert plan == (if Present(title) then [Assignment(TitleColumn, TextParam(title.value))] else []);
    if Present(status) {
      updateFields := updateFields + [SetClause(StatusColumn, queryIndex)];
      queryIndex := queryIndex + 1;
      queryParams := queryParams + [TextParam(status.value)];
      ExtendPlan(taskId, plan, Assignment(StatusColumn, TextParam(status.value)));
      plan := plan + [Assignment(StatusColumn, TextParam(status.value))];
    }
    assert updateFields == Clauses(plan) && queryParams == [IdParam(taskId)] + Values(plan);
    assert queryIndex == |plan| + 2;
    assert plan == (if Present(title) then [Assignment(TitleColumn, TextParam(title.value))] else []) + (if Present(status) then [Assignment(StatusColumn, TextParam(status.value))] else []);
    if Present(description) {
      updateFields := updateFields + [SetClause(DescriptionColumn, queryIndex)];
      queryIndex := queryIndex + 1;
      queryParams := queryParams + [TextParam(description.value)];
      ExtendPlan(taskId, plan, Assignment(DescriptionColumn, TextParam(description.value)));
      plan := plan + [Assignment(DescriptionColumn, TextParam(description.value))];
      embedCall := Some(description.value);
      embedding := GetEmbedding(encoder, providerUp, description.value);
      if embedding.Some? {
        updateFields := updateFields + [SetClause(EmbeddingColumn, queryIndex)];
        queryIndex := queryIndex + 1;
        queryParams := queryParams + [VectorParam(embedding.value)];
        ExtendPlan(taskId, plan, Assignment(EmbeddingColumn, VectorParam(embedding.value)));
        plan := plan + [Assignment(EmbeddingColumn, VectorParam(embedding.value))];
      }
    }
    assert plan == PlanUpdate(title, status, description, embedding);
  }

  /** Adding one assignment to a plan adds the next clause, numbered one
      past the last, and its value at the matching position. */
  lemma ExtendPlan(taskId: int, plan: seq<Assignment>, a: Assignment)
    ensures Clauses(plan + [a]) == Clauses(plan) + [SetClause(a.column, |plan| + 2)]
    ensures [IdParam(taskId)] + Values(plan + [a]) == [IdParam(taskId)] + Values(plan) + [a.value]
  {
    assert Values(plan + [a]) == Values(plan) + [a.value];
  }

  // ---------------------------------------------------------------------
  // Lemmas: the statement the builder produces means the intended update.

  lemma {:induction false} ApplyConcat(t: Task, p: seq<Assignment>, q: seq<Assignment>)
    requires forall i :: 0 <= i < |p| ==> WellTyped(p[i])
    requires forall i :: 0 <= i < |q| ==> WellTyped(q[i])
    ensures forall i :: 0 <= i < |p + q| ==> WellTyped((p + q)[i])
    ensures Apply(t, p + q) == Apply(Apply(t, p), q)
    decreases |p|
  {
    if p == [] {
      assert p + q == q;
    } else {
      assert (p + q)[0] == p[0];
      assert (p + q)[1..] == p[1..] + q;
      ApplyConcat(Assign(t, p[0]), p[1..], q);
    }
  }

  /** Applying the planned assignments performs exactly the intended partial update. */
  lemma PlanMeansPatch(t: Task, title: Option<string>, status: Option<string>, description: Option<string>,
                       embedding: Option<Vector>)
    ensures Apply(t, PlanUpdate(title, status, description, embedding)) == Patched(t, title, status, description, embedding)
  {
    var pt, ps, pd, pe := TitlePart(title), StatusPart(status), DescriptionPart(description), EmbeddingPart(description, embedding);
    var t1 := Apply(t, pt);
    var t2 := Apply(t1, ps);
    var t3 := Apply(t2, pd);
    var t4 := Apply(t3, pe);
    assert Apply(t, pt + ps) == t2 by { ApplyConcat(t, pt, ps); }
    assert Apply(t, pt + ps + pd) == t3 by { ApplyConcat(t, pt + ps, pd); }
    assert Apply(t, pt + ps + pd + pe) == t4 by { ApplyConcat(t, pt + ps + pd, pe); }
    assert t1 == (if Present(title) then t.(title := title.value) else t) by { ApplyAtMostOne(t, pt); }
    assert t2 == (if Present(status) then t1.(status := status.value) else t1) by { ApplyAtMostOne(t1, ps); }
    assert t3 == (if Present(description) then t2.(description := description.value) else t2) by { ApplyAtMostOne(t2, pd); }
    assert t4 == (if Present(description) && embedding.Some? then t3.(embedding := embedding) else t3) by {
      ApplyAtMostOne(t3, pe);
    }
  }

  lemma ApplyAtMostOne(t: Task, p: seq<Assignment>)
    requires |p| <= 1 && forall i :: 0 <= i < |p| ==> WellTyped(p[i])
    ensures Apply(t, p) == if p == [] then t else Assign(t, p[0])
  {
    if p != [] {
      assert p[1..] == [];
    }
  }

  lemma OrderConcat(p: seq<Assignment>, q: seq<Assignment>)
    requires InColumnOrder(p) && InColumnOrder(q)
    requires forall a, b :: a in p && b in q ==> Rank(a.column) < Rank(b.column)
    ensures InColumnOrder(p + q)
  {
    forall i, j | 0 <= i < j < |p + q| ensures Rank((p + q)[i].column) < Rank((p + q)[j].column) {
      if j < |p| {
      } else if i < |p| {
        assert (p + q)[i] in p && (p + q)[j] in q;
      } else {
        assert (p + q)[i] == q[i - |p|] && (p + q)[j] == q[j - |p|];
      }
    }
  }

  /** The plan sets each column at most once, in the fixed order title,
      status, description, embedding. */
  lemma PlanInColumnOrder(title: Option<string>, status: Option<string>, description: Option<string>,
                          embedding: Option<Vector>)
    ensures InColumnOrder(PlanUpdate(title, status, description, embedding))
  {
    var pt, ps, pd, pe := TitlePart(title), StatusPart(status), DescriptionPart(description), EmbeddingPart(description, embedding);
    assert InColumnOrder(pt + ps) by { OrderConcat(pt, ps); }
    assert InColumnOrder(pt + ps + pd) by { OrderConcat(pt + ps, pd); }
    OrderConcat(pt + ps + pd, pe);
  }

  /** The plan gives each column a value of its type. */
  lemma PlanWellTyped(title: Option<string>, status: Option<string>, description: Option<string>,
                      embedding: Option<Vector>)
    ensures var plan := PlanUpdate(title, status, description, embedding);
            forall i :: 0 <= i < |plan| ==> WellTyped(plan[i])
  {
    var pt, ps, pd, pe := TitlePart(title), StatusPart(status), DescriptionPart(description), EmbeddingPart(description, embedding);
    var plan := pt + ps + pd + pe;
    forall i | 0 <= i < |plan| ensures WellTyped(plan[i]) {
      assert plan[i] in pt || plan[i] in ps || plan[i] in pd || plan[i] in pe;
    }
  }

  /** The plan sets a text column exactly when that field was supplied
      non-empty, and the embedding exactly when a description was supplied
      and its embedding was obtained. */
  lemma PlanSetsSuppliedFields(title: Option<string>, status: Option<string>, description: Option<string>,
                               embedding: Option<Vector>)
    ensures var plan := PlanUpdate(title, status, description, embedding);
            && (Sets(plan, TitleColumn) <==> Present(title))
            && (Sets(plan, StatusColumn) <==> Present(status))
            && (Sets(plan, DescriptionColumn) <==> Present(description))
            && (Sets(plan, EmbeddingColumn) <==> Present(description) && embedding.Some?)
  {
    var pt, ps, pd, pe := TitlePart(title), StatusPart(status), DescriptionPart(description), EmbeddingPart(description, embedding);
    SetsOfParts(pt, ps, pd, pe, TitleColumn);
    SetsOfParts(pt, ps, pd, pe, StatusColumn);
    SetsOfParts(pt, ps, pd, pe, DescriptionColumn);
    SetsOfParts(pt, ps, pd, pe, EmbeddingColumn);
  }

  /** A column is set by a SET list made of at-most-one-clause parts exactly
      when one of the parts sets it. */
  lemma SetsOfParts(pt: seq<Assignment>, ps: seq<Assignment>, pd: seq<Assignment>, pe: seq<Assignment>, c: Column)
    requires |pt| <= 1 && |ps| <= 1 && |pd| <= 1 && |pe| <= 1
    ensures Sets(pt + ps + pd + pe, c) <==>
            (pt != [] && pt[0].column == c) || (ps != [] && ps[0].column == c)
            || (pd != [] && pd[0].column == c) || (pe != [] && pe[0].column == c)
  {
    var plan := pt + ps + pd + pe;
    forall a | a in plan ensures a in pt || a in ps || a in pd || a in pe {
    }
    if pt != [] { assert pt[0] in plan; }
    if ps != [] { assert ps[0] in plan; }
    if pd != [] { assert pd[0] in plan; }
    if pe != [] { assert pe[0] in plan; }
  }

  /** The SET list is empty exactly when no field was supplied. */
  lemma PlanEmptyIffNoFields(title: Option<string>, status: Option<string>, description: Option<string>,
                             embedding: Option<Vector>)
    ensures PlanUpdate(title, status, description, embedding) == [] <==>
            !Present(title) && !Present(status) && !Present(description)
  {
    var pt, ps, pd, pe := TitlePart(title), StatusPart(status), DescriptionPart(description), EmbeddingPart(description, embedding);
    assert |pt + ps + pd + pe| == |pt| + |ps| + |pd| + |pe|;
  }

  /** Every placeholder of the built statement binds to the value planned for its column. */
  lemma BindRecoversPlan(taskId: int, plan: seq<Assignment>)
    requires forall i :: 0 <= i < |plan| ==> WellTyped(plan[i])
    ensures Bind(Clauses(plan), [IdParam(taskId)] + Values(plan)) == Some(plan)
  {
    var params := [IdParam(taskId)] + Values(plan);
    var clauses := Clauses(plan);
    forall i | 0 <= i < |plan|
      ensures Binds(clauses[i], params)
      ensures Assignment(clauses[i].column, params[clauses[i].placeholder - 1]) == plan[i]
    {
      assert params[i + 1] == plan[i].value;
    }
    assert Bind(clauses, params).value == plan;
  }

  /** The UPDATE statement built for a request with at least one field runs
      without error and performs the intended partial update on the row
      `taskId` only, or matches no row when there is none. */
  lemma BuiltStatementMeaning(tasks: map<int, Task>, taskId: int, title: Option<string>, status: Option<string>,
                              description: Option<string>, embedding: Option<Vector>)
    requires Present(title) || Present(status) || Present(description)
    ensures var plan := PlanUpdate(title, status, description, embedding);
            RunUpdate(tasks, Clauses(plan), [IdParam(taskId)] + Values(plan))
            == if taskId in tasks then
                 var t := Patched(tasks[taskId], title, status, description, embedding);
                 Updated(tasks[taskId := t], [RowOf(taskId, t)])
               else
                 Updated(tasks, [])
  {
    var plan := PlanUpdate(title, status, description, embedding);
    PlanInColumnOrder(title, status, description, embedding);
    BuiltStatementAccepted(taskId, plan);
    BindRecoversPlan(taskId, plan);
    if taskId in tasks {
      PlanMeansPatch(tasks[taskId], title, status, description, embedding);
    }
  }

  /** A plan in column order gives a statement PostgreSQL accepts: no column
      is assigned twice and every bound parameter has its placeholder. */
  lemma BuiltStatementAccepted(taskId: int, plan: seq<Assignment>)
    requires InColumnOrder(plan)
    ensures DistinctColumns(Clauses(plan))
    ensures forall k :: 2 <= k <= |[IdParam(taskId)] + Values(plan)| ==> Referenced(Clauses(plan), k)
  {
    var clauses := Clauses(plan);
    forall i, j | 0 <= i < j < |clauses| ensures clauses[i].column != clauses[j].column {
      assert Rank(plan[i].column) < Rank(plan[j].column);
    }
    forall k | 2 <= k <= |[IdParam(taskId)] + Values(plan)| ensures Referenced(clauses, k) {
      assert clauses[k - 2].placeholder == k;
    }
  }

  /** A status-only update changes the status and nothing else. */
  lemma StatusOnlyUpdate(t: Task, status: string, embedding: Option<Vector>)
    requires status != ""
    ensures Apply(t, PlanUpdate(None, Some(status), None, embedding)) == t.(status := status)
  {
    PlanMeansPatch(t, None, Some(status), None, embedding);
  }

  /** When the provider fails, the new description is still written and the
      old embedding is kept; when it succeeds, the row's embedding describes
      its new description. */
  lemma DescriptionUpdateEmbedding(t: Task, title: Option<string>, status: Option<string>, description: string,
                                   encoder: string -> Vector, providerUp: bool)
    requires description != ""
    ensures var r := Apply(t, PlanUpdate(title, status, Some(description),
                                         GetEmbedding(encoder, providerUp, description)));
            r.description == description
            && (providerUp ==> Consistent(r, encoder))
            && (!providerUp ==> r.embedding == t.embedding)
  {
    PlanMeansPatch(t, title, status, Some(description), GetEmbedding(encoder, providerUp, description));
  }
}
