/**
 * What a find query hands to the collection when it runs: the filter
 * built from its expressions, and the parameter set of the find call. The
 * calls themselves are asynchronous driver I/O; here a call is only the
 * value naming which collection method is invoked with which parameters.
 */
module Execution {
  import opened Results
  import opened SortSpec
  import opened QueryState
  import opened FindQuery

  /** A filter document: the empty mapping `{}`, or `And` over the expressions in order. */
  datatype Filter<E> = MatchAll | And(operands: seq<E>)

  /**
   * `get_filter_query`: `{}` exactly when there are no expressions;
   * otherwise one conjunction of all of them, in insertion order.
   */
  function FilterQuery<M, E, S>(q: Query<M, E, S>): (f: Filter<E>)
    ensures f.MatchAll? <==> q.findExpressions == []
    ensures f.And? ==> f.operands == q.findExpressions && |f.operands| > 0
  {
    if |q.findExpressions| > 0 then And(q.findExpressions) else MatchAll
  }

  /** The keyword arguments of the collection's find and find_one calls. */
  datatype Params<E, S, P> = Params(
    filter: Filter<E>,
    projection: P,
    session: Option<S>,
    limit: nat,
    skip: nat,
    sort: seq<SortKey>)

  /**
   * `_find_query_params`. The projection document comes from the external
   * `get_projection`, passed in as a function of the projection model. The
   * effective limit is 1 in single mode and the stored limit otherwise;
   * skip, sort and session are passed through as stored.
   */
  function FindParams<M, E, S, P>(q: Query<M, E, S>, getProjection: M -> P): (p: Params<E, S, P>)
    ensures p.filter == FilterQuery(q)
    ensures p.projection == getProjection(q.projectionModel)
    ensures q.isSingle ==> p.limit == 1
    ensures !q.isSingle ==> p.limit == q.limitNumber
    ensures p.skip == q.skipNumber && p.sort == q.sortExpressions && p.session == q.session
  {
    Params(FilterQuery(q), getProjection(q.projectionModel), q.session,
           if q.isSingle then 1 else q.limitNumber, q.skipNumber, q.sortExpressions)
  }

  /** The one collection call an execution issues. */
  datatype Call<E, S, P> =
    | FindOneCall(params: Params<E, S, P>)   // find_one: at most one raw record
    | FindCall(params: Params<E, S, P>)      // find: a cursor over the records
    | CountCall(filter: Filter<E>)           // count_documents

  /** `__await__`: single mode asks for one record, otherwise the cursor is drained into a list. */
  function AwaitCall<M, E, S, P>(q: Query<M, E, S>, getProjection: M -> P): (c: Call<E, S, P>)
    ensures c.FindOneCall? <==> q.isSingle
    ensures !c.CountCall? && c.params == FindParams(q, getProjection)
  {
    if q.isSingle then FindOneCall(FindParams(q, getProjection)) else CursorCall(q, getProjection)
  }

  /** `motor_cursor`: a find call with the assembled parameters, whatever the mode. */
  function CursorCall<M, E, S, P>(q: Query<M, E, S>, getProjection: M -> P): (c: Call<E, S, P>)
    ensures c.FindCall? && c.params == FindParams(q, getProjection)
  {
    FindCall(FindParams(q, getProjection))
  }

  /** `count`: only the filter is passed; projection, sort, skip, limit and single mode are ignored. */
  function Count<M, E, S, P>(q: Query<M, E, S>): (c: Call<E, S, P>)
    ensures c.CountCall? && c.filter == FilterQuery(q)
  {
    CountCall(FilterQuery(q))
  }

  /** Counting a query gives the same call whatever its skip and limit. */
  lemma CountIgnoresPagination<M, E, S, P>(q: Query<M, E, S>, skip: nat, limit: nat)
    ensures Skip(q, skip).Ok? && Limit(Skip(q, skip).value, limit).Ok?
    ensures Count<M, E, S, P>(Limit(Skip(q, skip).value, limit).value) == Count<M, E, S, P>(q)
  {
  }

  /** After `one(flag)` the effective limit is 1, even when the flag is false. */
  lemma OneForcesLimit<M, E, S, P>(q: Query<M, E, S>, flag: bool, getProjection: M -> P)
    ensures FindParams(One(q, flag).value, getProjection).limit == 1
    ensures One(q, flag).value.isSingle == flag
  {
  }

  /**
   * `limit(n)` after `one()`: the stored limit is n, but single mode still
   * makes the effective limit 1.
   */
  lemma LimitAfterOne<M, E, S, P>(q: Query<M, E, S>, n: nat, getProjection: M -> P)
    ensures Limit(One(q, true).value, n).Ok?
    ensures var r := Limit(One(q, true).value, n).value;
            r.limitNumber == n && r.isSingle && FindParams(r, getProjection).limit == 1
  {
  }

  /** `one(false)` after `limit(n)`: single mode is off, and the stored and effective limits are 1. */
  lemma OneFalseAfterLimit<M, E, S, P>(q: Query<M, E, S>, n: nat, getProjection: M -> P)
    ensures Limit(q, n).Ok?
    ensures var r := One(Limit(q, n).value, false).value;
            r.limitNumber == 1 && !r.isSingle && FindParams(r, getProjection).limit == 1
  {
  }

  /** `find(p1).find(p2)` on a fresh query filters by the conjunction of p1 and p2, p1 first. */
  lemma FilterAccumulates<M, E, S>(q: Query<M, E, S>, p1: E, p2: E)
    requires q.findExpressions == []
    ensures Find(q, [p1], None, None, Null, None, None, None).Ok?
    ensures var q1 := Find(q, [p1], None, None, Null, None, None, None).value;
            Find(q1, [p2], None, None, Null, None, None, None).Ok? &&
            FilterQuery(Find(q1, [p2], None, None, Null, None, None, None).value) == And([p1, p2])
  {
  }

  /** A query built from a document model alone projects onto that model and filters nothing. */
  lemma FreshQueryDefaults<M, E, S, P>(documentModel: M, getProjection: M -> P)
    ensures var q := Init<M, E, S>(documentModel, None);
            FindParams(q, getProjection) ==
              Params(MatchAll, getProjection(documentModel), None, 0, 0, [])
  {
  }
}
