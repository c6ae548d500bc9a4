/**
 * The state of a find query and its validate-on-assign update: a query is
 * copied, then each named field is assigned in turn, each assignment running
 * that field's validators (`_copy_update` with `validate_assignment`).
 */
module QueryState {
  import opened Results
  import opened SortSpec

  /**
   * The fields of a `FindQuery`. `M` stands for a model class, `E` for a
   * find expression (an operator or a raw mapping) and `S` for a session
   * handle, all three opaque here.
   */
  datatype Query<M, E, S> = Query(
    documentModel: M,
    projectionModel: M,
    findExpressions: seq<E>,
    sortExpressions: seq<SortKey>,
    skipNumber: nat,
    limitNumber: nat,
    isSingle: bool,
    session: Option<S>)

  /** The fields a builder may assign through a validated update. */
  datatype Field = FindExpressions | ProjectionModel | SortExpressions | SkipNumber | LimitNumber | IsSingle

  /** One keyword argument of `_copy_update`: a field and its raw new value. */
  datatype FieldUpdate<M, E> =
    | SetFindExpressions(exprs: seq<E>)
    | SetProjectionModel(model: Option<M>)
    | SetSortExpressions(raw: seq<SortArg>)
    | SetSkipNumber(skip: int)
    | SetLimitNumber(limit: int)
    | SetIsSingle(flag: bool)

  function Target<M, E>(u: FieldUpdate<M, E>): Field {
    match u
    case SetFindExpressions(_) => FindExpressions
    case SetProjectionModel(_) => ProjectionModel
    case SetSortExpressions(_) => SortExpressions
    case SetSkipNumber(_) => SkipNumber
    case SetLimitNumber(_) => LimitNumber
    case SetIsSingle(_) => IsSingle
  }

  /** The fields a list of updates assigns. */
  ghost function Targets<M, E>(us: seq<FieldUpdate<M, E>>): set<Field> {
    set i | 0 <= i < |us| :: Target(us[i])
  }

  /** The update passes its field's validator: `ge=0` for the bounds, the sort item validator for sort lists. */
  predicate Admissible<M, E>(u: FieldUpdate<M, E>) {
    match u
    case SetSkipNumber(n) => n >= 0
    case SetLimitNumber(n) => n >= 0
    case SetSortExpressions(raw) => AllAccepted(raw)
    case _ => true
  }

  /** The error an inadmissible update raises. */
  function ErrorOf<M, E>(u: FieldUpdate<M, E>): QueryError {
    if u.SetSortExpressions? then WrongSortType else NegativeBound
  }

  /** `default_projection_model`: a missing projection model is the document model. */
  function DefaultProjection<M>(val: Option<M>, documentModel: M): (m: M)
    ensures val.Some? ==> m == val.value
    ensures val.None? ==> m == documentModel
  {
    val.GetOr(documentModel)
  }

  /** After the update, its field holds the validated form of the new value. */
  ghost predicate Holds<M, E, S>(q: Query<M, E, S>, u: FieldUpdate<M, E>) {
    match u
    case SetFindExpressions(e) => q.findExpressions == e
    case SetProjectionModel(m) => q.projectionModel == (if m.Some? then m.value else q.documentModel)
    case SetSortExpressions(raw) => AllKeys(DropNone(raw)) && q.sortExpressions == Keys(DropNone(raw))
    case SetSkipNumber(n) => q.skipNumber == n
    case SetLimitNumber(n) => q.limitNumber == n
    case SetIsSingle(b) => q.isSingle == b
  }

  /** `r` agrees with `q` on every field outside `fs`; the document model and the session are never assigned here. */
  ghost predicate SameExcept<M, E, S>(q: Query<M, E, S>, r: Query<M, E, S>, fs: set<Field>) {
    r.documentModel == q.documentModel && r.session == q.session &&
    (FindExpressions !in fs ==> r.findExpressions == q.findExpressions) &&
    (ProjectionModel !in fs ==> r.projectionModel == q.projectionModel) &&
    (SortExpressions !in fs ==> r.sortExpressions == q.sortExpressions) &&
    (SkipNumber !in fs ==> r.skipNumber == q.skipNumber) &&
    (LimitNumber !in fs ==> r.limitNumber == q.limitNumber) &&
    (IsSingle !in fs ==> r.isSingle == q.isSingle)
  }

  /**
   * A query as constructed from a document model with every other field at
   * its default; the projection model defaults to the document model.
   */
  function Init<M, E, S>(documentModel: M, projectionModel: Option<M>): (q: Query<M, E, S>)
    ensures q.documentModel == documentModel
    ensures projectionModel.None? ==> q.projectionModel == documentModel
    ensures projectionModel.Some? ==> q.projectionModel == projectionModel.value
    ensures q.findExpressions == [] && q.sortExpressions == []
    ensures q.skipNumber == 0 && q.limitNumber == 0 && !q.isSingle && q.session.None?
  {
    Query(documentModel, DefaultProjection(projectionModel, documentModel), [], [], 0, 0, false, None)
  }

  /**
   * `setattr` of one field under `validate_assignment`: the field's
   * validators run on the new value, and a rejected value raises.
   */
  function Assign<M, E, S>(q: Query<M, E, S>, u: FieldUpdate<M, E>): (r: Result<Query<M, E, S>>)
    ensures r.Ok? <==> Admissible(u)
    ensures r.Fail? ==> r.error == ErrorOf(u)
    ensures r.Ok? ==> Holds(r.value, u) && SameExcept(q, r.value, {Target(u)})
  {
    match u
    case SetFindExpressions(e) => Ok(q.(findExpressions := e))
    case SetProjectionModel(m) => Ok(q.(projectionModel := DefaultProjection(m, q.documentModel)))
    case SetSortExpressions(raw) =>
      var keys :- ValidateSort(raw);
      Ok(q.(sortExpressions := keys))
    case SetSkipNumber(n) => if n < 0 then Fail(NegativeBound) else Ok(q.(skipNumber := n))
    case SetLimitNumber(n) => if n < 0 then Fail(NegativeBound) else Ok(q.(limitNumber := n))
    case SetIsSingle(b) => Ok(q.(isSingle := b))
  }

  /** No later update in the list assigns the same field as update `i`. */
  predicate LastFor<M, E>(us: seq<FieldUpdate<M, E>>, i: int)
    requires 0 <= i < |us|
  {
    forall j :: i < j < |us| ==> Target(us[j]) != Target(us[i])
  }

  /**
   * The specification of `_copy_update`: the updates applied in order to a
   * copy, stopping at the first one whose validation raises. It succeeds
   * exactly when every update is admissible, raises the first rejected
   * update's error otherwise, changes no field it is not asked to, and
   * leaves each field holding the last value assigned to it.
   */
  function ApplyUpdates<M, E, S>(q: Query<M, E, S>, us: seq<FieldUpdate<M, E>>): (r: Result<Query<M, E, S>>)
    ensures r.Ok? <==> forall i :: 0 <= i < |us| ==> Admissible(us[i])
    ensures r.Fail? ==> exists i :: 0 <= i < |us| && !Admissible(us[i]) && r.error == ErrorOf(us[i]) &&
                                    forall j :: 0 <= j < i ==> Admissible(us[j])
    ensures r.Ok? ==> SameExcept(q, r.value, Targets(us))
    ensures r.Ok? ==> forall i :: 0 <= i < |us| && LastFor(us, i) ==> Holds(r.value, us[i])
    decreases |us|
  {
    if us == [] then Ok(q)
    else
      var next :- Assign(q, us[0]);
      var r := ApplyUpdates(next, us[1..]);
      assert r.Fail? ==> exists i :: 0 <= i < |us| && !Admissible(us[i]) && r.error == ErrorOf(us[i]) &&
                                     forall j :: 0 <= j < i ==> Admissible(us[j]) by {
        if r.Fail? {
          var k :| 0 <= k < |us[1..]| && !Admissible(us[1..][k]) && r.error == ErrorOf(us[1..][k]) &&
                   forall j :: 0 <= j < k ==> Admissible(us[1..][j]);
          assert !Admissible(us[k + 1]) && forall j :: 0 <= j < k + 1 ==> Admissible(us[j]);
        }
      }
      assert Targets(us) == {Target(us[0])} + Targets(us[1..]) by {
        assert forall i :: 0 < i < |us| ==> us[i] == us[1..][i - 1];
      }
      assert r.Ok? ==> forall i :: 0 <= i < |us| && LastFor(us, i) ==> Holds(r.value, us[i]) by {
        if r.Ok? {
          forall i | 0 <= i < |us| && LastFor(us, i) ensures Holds(r.value, us[i]) {
            if i == 0 {
              assert Target(us[0]) !in Targets(us[1..]);
              HoldsKept(next, r.value, us[0], Targets(us[1..]));
            } else {
              assert us[i] == us[1..][i - 1];
              assert LastFor(us[1..], i - 1);
            }
          }
        }
      }
      r
  }

  /** Holds is unaffected by changes to other fields. */
  lemma HoldsKept<M, E, S>(q: Query<M, E, S>, r: Query<M, E, S>, u: FieldUpdate<M, E>, fs: set<Field>)
    requires Holds(q, u) && SameExcept(q, r, fs) && Target(u) !in fs
    ensures Holds(r, u)
  {
  }

  /**
   * `_copy_update`: copy the query, then assign each keyword argument in
   * turn, each assignment validated; the first rejected value raises.
   */
  method CopyUpdate<M, E, S>(q: Query<M, E, S>, us: seq<FieldUpdate<M, E>>) returns (r: Result<Query<M, E, S>>)
    ensures r == ApplyUpdates(q, us)
  {
    var res := q;
    var i := 0;
    while i < |us|
      invariant 0 <= i <= |us|
      invariant ApplyUpdates(q, us) == ApplyUpdates(res, us[i..])
    {
      var step := Assign(res, us[i]);
      assert us[i..][1..] == us[i + 1..];
      if step.Fail? {
        return step.PropagateFailure();
      }
      res := step.value;
      i := i + 1;
    }
    r := Ok(res);
  }
}
