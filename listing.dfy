/** The two read-only queries of the task service: `SELECT ... ORDER BY id
    ASC` for GET /tasks, and the nearest-neighbour query `ORDER BY distance
    ASC LIMIT 3` for GET /tasks/search. */
module Listing {
  import opened TaskModel

  /** The ids below `n` that are stored in the table. */
  ghost function KeysBelow(tasks: map<int, Task>, n: int): set<int>
  {
    set id | id in tasks && 0 <= id < n
  }

  /** The stored ids below `n`, in ascending order, each exactly once. */
  function IdsBelow(tasks: map<int, Task>, n: nat): (ids: seq<int>)
    ensures forall i, j :: 0 <= i < j < |ids| ==> ids[i] < ids[j]
    ensures forall i :: 0 <= i < |ids| ==> 0 <= ids[i] < n && ids[i] in tasks
    ensures forall id :: id in tasks && 0 <= id < n ==> id in ids
  {
    if n == 0 then []
    else if n - 1 in tasks then IdsBelow(tasks, n - 1) + [n - 1]
    else IdsBelow(tasks, n - 1)
  }

  lemma KeysBelowStep(tasks: map<int, Task>, n: nat)
    requires n > 0
    ensures n - 1 !in KeysBelow(tasks, n - 1)
    ensures KeysBelow(tasks, n) == KeysBelow(tasks, n - 1) + (if n - 1 in tasks then {n - 1} else {})
  {
    forall x ensures x in KeysBelow(tasks, n) <==> x in KeysBelow(tasks, n - 1) + (if n - 1 in tasks then {n - 1} else {}) {
    }
  }

  /** There are as many ids below `n` as stored keys below `n`. */
  lemma {:induction false} IdsBelowCount(tasks: map<int, Task>, n: nat)
    ensures |IdsBelow(tasks, n)| == |KeysBelow(tasks, n)|
  {
    if n == 0 {
      assert KeysBelow(tasks, n) == {};
    } else {
      IdsBelowCount(tasks, n - 1);
      KeysBelowStep(tasks, n);
    }
  }

  /** Every stored id lies in [0, n). */
  predicate IdsUnder(tasks: map<int, Task>, n: nat)
  {
    forall id :: id in tasks ==> 0 <= id < n
  }

  /** When every stored id lies below `n`, the ids below `n` are all of them. */
  lemma AllIdsBelow(tasks: map<int, Task>, n: nat)
    requires IdsUnder(tasks, n)
    ensures |IdsBelow(tasks, n)| == |tasks|
  {
    IdsBelowCount(tasks, n);
    assert KeysBelow(tasks, n) == tasks.Keys;
  }

  /** GET /tasks: every stored row below `n`, ascending by id, without its embedding. */
  function ListRows(tasks: map<int, Task>, n: nat): (rows: seq<Row>)
    ensures forall i, j :: 0 <= i < j < |rows| ==> rows[i].id < rows[j].id
    ensures forall i :: 0 <= i < |rows| ==> rows[i].id in tasks && rows[i] == RowOf(rows[i].id, tasks[rows[i].id])
    ensures forall id :: id in tasks && 0 <= id < n ==> exists i :: 0 <= i < |rows| && rows[i].id == id
    ensures |rows| == |IdsBelow(tasks, n)|
  {
    var ids := IdsBelow(tasks, n);
    var rows := seq(|ids|, i requires 0 <= i < |ids| => RowOf(ids[i], tasks[ids[i]]));
    assert forall i :: 0 <= i < |ids| ==> rows[i].id == ids[i];
    rows
  }

  // ---------------------------------------------------------------------
  // Search.

  /** `h` is a row of the table together with its distance to the query. */
  predicate IsHitOf(h: Hit, tasks: map<int, Task>, query: Vector, distance: (Vector, Vector) -> real)
  {
    h.row.id in tasks
    && h.row == RowOf(h.row.id, tasks[h.row.id])
    && h.distance == DistanceOf(tasks[h.row.id], query, distance)
  }

  /** The rows `FROM tasks` with their distance column, in id order. */
  function Candidates(tasks: map<int, Task>, n: nat, query: Vector, distance: (Vector, Vector) -> real): (hits: seq<Hit>)
    ensures forall i, j :: 0 <= i < j < |hits| ==> hits[i].row.id < hits[j].row.id
    ensures forall i :: 0 <= i < |hits| ==> IsHitOf(hits[i], tasks, query, distance)
    ensures forall id :: id in tasks && 0 <= id < n ==> exists i :: 0 <= i < |hits| && hits[i].row.id == id
    ensures |hits| == |IdsBelow(tasks, n)|
  {
    var ids := IdsBelow(tasks, n);
    var hits := seq(|ids|, i requires 0 <= i < |ids| =>
                      Hit(RowOf(ids[i], tasks[ids[i]]), DistanceOf(tasks[ids[i]], query, distance)));
    assert forall i :: 0 <= i < |ids| ==> hits[i].row.id == ids[i];
    hits
  }

  ghost predicate Sorted(hits: seq<Hit>)
  {
    forall i, j :: 0 <= i < j < |hits| ==> DistLe(hits[i].distance, hits[j].distance)
  }

  ghost predicate DistinctIds(hits: seq<Hit>)
  {
    forall i, j :: 0 <= i < j < |hits| ==> hits[i].row.id != hits[j].row.id
  }

  /** Inserts `h` before the first hit it is not farther than. */
  function Insert(h: Hit, s: seq<Hit>): seq<Hit>
  {
    if s == [] then [h]
    else if DistLe(h.distance, s[0].distance) then [h] + s
    else [s[0]] + Insert(h, s[1..])
  }

  /** Insertion sort by distance, nearest first. */
  function SortByDistance(s: seq<Hit>): seq<Hit>
  {
    if s == [] then [] else Insert(s[0], SortByDistance(s[1..]))
  }

  lemma {:induction false} InsertPermutes(h: Hit, s: seq<Hit>)
    ensures multiset(Insert(h, s)) == multiset(s) + multiset{h}
  {
    if s != [] && !DistLe(h.distance, s[0].distance) {
      InsertPermutes(h, s[1..]);
      assert s == [s[0]] + s[1..];
    }
  }

  lemma {:induction false} InsertKeepsSorted(h: Hit, s: seq<Hit>)
    requires Sorted(s)
    ensures Sorted(Insert(h, s))
  {
    if s == [] {
    } else if DistLe(h.distance, s[0].distance) {
      forall j | 1 <= j < |[h] + s| ensures DistLe(h.distance, ([h] + s)[j].distance) {
        DistLeTransitive(h.distance, s[0].distance, s[j - 1].distance);
      }
    } else {
      var rest := Insert(h, s[1..]);
      InsertKeepsSorted(h, s[1..]);
      InsertPermutes(h, s[1..]);
      forall j | 0 <= j < |rest| ensures DistLe(s[0].distance, rest[j].distance) {
        assert rest[j] in multiset(rest);
        if rest[j] != h {
          var k :| 1 <= k < |s| && s[k] == rest[j];
        }
      }
    }
  }

  lemma {:induction false} InsertKeepsDistinct(h: Hit, s: seq<Hit>)
    requires DistinctIds(s)
    requires forall x :: x in s ==> x.row.id != h.row.id
    ensures DistinctIds(Insert(h, s))
  {
    if s != [] && !DistLe(h.distance, s[0].distance) {
      var rest := Insert(h, s[1..]);
      InsertKeepsDistinct(h, s[1..]);
      InsertPermutes(h, s[1..]);
      forall j | 0 <= j < |rest| ensures rest[j].row.id != s[0].row.id {
        assert rest[j] in multiset(rest);
        if rest[j] != h {
          var k :| 1 <= k < |s| && s[k] == rest[j];
        }
      }
    }
  }

  /** Sorting yields the same hits. */
  lemma {:induction false} SortByDistancePermutes(s: seq<Hit>)
    ensures multiset(SortByDistance(s)) == multiset(s)
  {
    if s != [] {
      SortByDistancePermutes(s[1..]);
      InsertPermutes(s[0], SortByDistance(s[1..]));
      assert s == [s[0]] + s[1..];
    }
  }

  /** Sorting puts the hits nearest first, `NULL` distances last. */
  lemma {:induction false} SortByDistanceSorts(s: seq<Hit>)
    ensures Sorted(SortByDistance(s))
  {
    if s != [] {
      SortByDistanceSorts(s[1..]);
      InsertKeepsSorted(s[0], SortByDistance(s[1..]));
    }
  }

  /** Sorting keeps the ids distinct. */
  lemma {:induction false} SortByDistanceKeepsDistinct(s: seq<Hit>)
    requires DistinctIds(s)
    ensures DistinctIds(SortByDistance(s))
  {
    if s != [] {
      var rest := SortByDistance(s[1..]);
      assert DistinctIds(s[1..]);
      SortByDistanceKeepsDistinct(s[1..]);
      SortByDistancePermutes(s[1..]);
      forall x | x in rest ensures x.row.id != s[0].row.id {
        assert x in multiset(s[1..]);
      }
      InsertKeepsDistinct(s[0], rest);
    }
  }

  /** `ORDER BY distance ASC LIMIT k` over the candidate rows. */
  function Nearest(candidates: seq<Hit>, k: nat): seq<Hit>
  {
    var sorted := SortByDistance(candidates);
    sorted[..if k < |sorted| then k else |sorted|]
  }

  /** The nearest-neighbour query returns min(k, number of rows) rows of the
      candidates, nearest first, no row twice, and no row left out is nearer
      than one returned. */
  lemma NearestIsTopK(candidates: seq<Hit>, k: nat)
    requires DistinctIds(candidates)
    ensures var r := Nearest(candidates, k);
            && |r| == (if k < |candidates| then k else |candidates|)
            && Sorted(r)
            && DistinctIds(r)
            && (forall h :: h in r ==> h in candidates)
            && (forall x, y :: x in candidates && x !in r && y in r ==> DistLe(y.distance, x.distance))
  {
    var sorted := SortByDistance(candidates);
    var m := if k < |sorted| then k else |sorted|;
    var r := sorted[..m];
    SortByDistancePermutes(candidates);
    SortByDistanceSorts(candidates);
    SortByDistanceKeepsDistinct(candidates);
    assert |sorted| == |multiset(sorted)| == |multiset(candidates)| == |candidates|;
    forall h | h in r ensures h in candidates {
      assert h in multiset(sorted);
    }
    forall x, y | x in candidates && x !in r && y in r ensures DistLe(y.distance, x.distance) {
      assert x in multiset(sorted);
      var j :| 0 <= j < |sorted| && sorted[j] == x;
      var i :| 0 <= i < m && r[i] == y;
      assert j >= m;
    }
  }

  /** GET /tasks/search over the table: the nearest `k` stored rows to the query. */
  function SearchRows(tasks: map<int, Task>, n: nat, query: Vector, distance: (Vector, Vector) -> real, k: nat): seq<Hit>
  {
    Nearest(Candidates(tasks, n, query, distance), k)
  }

  /** What GET /tasks/search promises about the rows it returns, stated on
      the table: at most `k` of them (exactly k when there are enough),
      each a stored row with its distance, none twice, nearest first, rows
      without an embedding after every row with one, and no stored row left
      out is nearer than one returned. */
  lemma SearchRowsAreNearest(tasks: map<int, Task>, n: nat, query: Vector, distance: (Vector, Vector) -> real, k: nat)
    requires IdsUnder(tasks, n)
    ensures var r := SearchRows(tasks, n, query, distance, k);
            && |r| == (if k < |tasks| then k else |tasks|)
            && (forall i :: 0 <= i < |r| ==> IsHitOf(r[i], tasks, query, distance))
            && DistinctIds(r)
            && Sorted(r)
            && (forall id, y :: id in tasks && y in r && id !in HitIds(r) ==>
                  DistLe(y.distance, DistanceOf(tasks[id], query, distance)))
  {
    var c := Candidates(tasks, n, query, distance);
    var r := SearchRows(tasks, n, query, distance, k);
    assert DistinctIds(c);
    AllIdsBelow(tasks, n);
    NearestIsTopK(c, k);
    forall i | 0 <= i < |r| ensures IsHitOf(r[i], tasks, query, distance) {
      assert r[i] in r;
    }
    forall id, y | id in tasks && y in r && id !in HitIds(r)
      ensures DistLe(y.distance, DistanceOf(tasks[id], query, distance))
    {
      var i :| 0 <= i < |c| && c[i].row.id == id;
      assert c[i] in c;
      assert c[i] !in r;
    }
  }

  /** The ids of the rows of a result. */
  ghost function HitIds(hits: seq<Hit>): set<int>
  {
    set i | 0 <= i < |hits| :: hits[i].row.id
  }
}
