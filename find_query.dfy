/**
 * The builder methods of `FindQuery`. Each copies the query, assigns a few
 * fields through the validated update and returns the copy; the receiver is
 * a value and is never changed.
 */
module FindQuery {
  import opened Results
  import opened SortSpec
  import opened QueryState
  import opened Session

  /** One validated assignment on its own is just that assignment. */
  lemma SingleUpdate<M, E, S>(q: Query<M, E, S>, u: FieldUpdate<M, E>)
    ensures ApplyUpdates(q, [u]) == Assign(q, u)
  {
  }

  /** `limit(n)`: only `limit_number` changes; a negative bound is rejected. */
  function Limit<M, E, S>(q: Query<M, E, S>, n: int): (r: Result<Query<M, E, S>>)
    ensures n < 0 ==> r == Fail(NegativeBound)
    ensures n >= 0 ==> r == Ok(q.(limitNumber := n))
  {
    SingleUpdate(q, SetLimitNumber(n));
    ApplyUpdates(q, [SetLimitNumber(n)])
  }

  /** `skip(n)`: only `skip_number` changes; a negative bound is rejected. */
  function Skip<M, E, S>(q: Query<M, E, S>, n: int): (r: Result<Query<M, E, S>>)
    ensures n < 0 ==> r == Fail(NegativeBound)
    ensures n >= 0 ==> r == Ok(q.(skipNumber := n))
  {
    SingleUpdate(q, SetSkipNumber(n));
    ApplyUpdates(q, [SetSkipNumber(n)])
  }

  /** `project(model)`: only the projection model changes, and `None` yields the document model. */
  function Project<M, E, S>(q: Query<M, E, S>, model: Option<M>): (r: Result<Query<M, E, S>>)
    ensures r.Ok?
    ensures model.Some? ==> r.value == q.(projectionModel := model.value)
    ensures model.None? ==> r.value == q.(projectionModel := q.documentModel)
  {
    SingleUpdate(q, SetProjectionModel(model));
    ApplyUpdates(q, [SetProjectionModel(model)])
  }

  /** `one(flag)`: sets the single flag and forces the limit to 1, whatever the flag. */
  function One<M, E, S>(q: Query<M, E, S>, flag: bool): (r: Result<Query<M, E, S>>)
    ensures r.Ok?
    ensures r.value == q.(isSingle := flag, limitNumber := 1)
  {
    var us: seq<FieldUpdate<M, E>> := [SetIsSingle(flag), SetLimitNumber(1)];
    assert LastFor(us, 0) && LastFor(us, 1);
    assert Targets(us) == {IsSingle, LimitNumber} by {
      assert Target(us[0]) == IsSingle && Target(us[1]) == LimitNumber;
    }
    ApplyUpdates(q, us)
  }

  /** The argument list is a single list, which `sort` spreads into its arguments. */
  predicate Spread(args: seq<SortArg>) {
    |args| == 1 && args[0].List?
  }

  /**
   * The items `sort(*args)` ends up assigning: a lone list argument is
   * spread (repeatedly), and an empty argument list has no items.
   */
  function SortItems(args: seq<SortArg>): Option<seq<SortArg>>
    decreases args
  {
    if |args| == 0 then None
    else if Spread(args) then SortItems(args[0].items)
    else Some(args)
  }

  /**
   * `sort(*args)`: with no arguments it raises; a single list argument is
   * spread; otherwise the new keys, validated, go in front of the existing
   * ones, and nothing but the sort list changes.
   */
  function Sort<M, E, S>(q: Query<M, E, S>, args: seq<SortArg>): (r: Result<Query<M, E, S>>)
    ensures SortItems(args).None? ==> r == Fail(EmptySort)
    ensures SortItems(args).Some? ==>
      var items := SortItems(args).value;
      (r.Ok? <==> AllAccepted(items)) &&
      (r.Fail? ==> r.error == WrongSortType) &&
      (r.Ok? ==> AllKeys(DropNone(items)) &&
                 r.value == q.(sortExpressions := Keys(DropNone(items)) + q.sortExpressions))
    decreases args
  {
    if |args| == 0 then Fail(EmptySort)
    else if Spread(args) then Sort(q, args[0].items)
    else
      ValidatePrepend(args, q.sortExpressions);
      SingleUpdate(q, SetSortExpressions(args + Lift(q.sortExpressions)));
      ApplyUpdates(q, [SetSortExpressions(args + Lift(q.sortExpressions))])
  }

  /**
   * Whether `sort` succeeds, and the sort list it produces, depend only on
   * the arguments and the existing sort list.
   */
  lemma SortReadsOnlySortList<M, E, S>(q: Query<M, E, S>, p: Query<M, E, S>, args: seq<SortArg>)
    requires p.sortExpressions == q.sortExpressions
    ensures Sort(p, args).Ok? <==> Sort(q, args).Ok?
    ensures Sort(p, args).Fail? ==> Sort(p, args) == Sort(q, args)
    ensures Sort(p, args).Ok? ==> Sort(p, args).value == p.(sortExpressions := Sort(q, args).value.sortExpressions)
  {
  }

  /** `sort([a, b, ...])` is `sort(a, b, ...)`; in particular `sort([])` raises. */
  lemma SortSpreadsList<M, E, S>(q: Query<M, E, S>, items: seq<SortArg>)
    ensures Sort(q, [List(items)]) == Sort(q, items)
    ensures items == [] ==> Sort(q, [List(items)]) == Fail(EmptySort)
  {
  }

  /**
   * Two sort calls in a row: the keys of the later call come first, then
   * those of the earlier call, then the keys the query already had.
   */
  lemma SortPrecedence<M, E, S>(q: Query<M, E, S>, first: seq<SortArg>, second: seq<SortArg>)
    requires Sort(q, first).Ok?
    requires SortItems(second).Some? && AllAccepted(SortItems(second).value)
    ensures Sort(Sort(q, first).value, second).Ok?
    ensures var q1 := Sort(q, first).value;
            var q2 := Sort(q1, second).value;
            q1.sortExpressions == Keys(DropNone(SortItems(first).value)) + q.sortExpressions &&
            q2.sortExpressions == Keys(DropNone(SortItems(second).value)) + q1.sortExpressions
  {
  }

  /** "a" then "b": the query sorts by b ascending first, then by a ascending. */
  lemma SortTwoFields<M, E, S>(q: Query<M, E, S>)
    requires q.sortExpressions == []
    ensures Sort(q, [Str("a")]).Ok? && Sort(Sort(q, [Str("a")]).value, [Str("b")]).Ok?
    ensures Sort(Sort(q, [Str("a")]).value, [Str("b")]).value.sortExpressions ==
            [SortKey("b", Ascending), SortKey("a", Ascending)]
  {
  }

  /**
   * `find(*args, skip=, limit=, sort=, one=, projection_model=, session=)`
   * (also `find_many`): the new expressions are appended, then each given
   * option is applied in the order skip, limit, sort, one, project,
   * session; an absent option leaves its fields alone.
   */
  function Find<M, E, S>(q: Query<M, E, S>, args: seq<E>, skip: Option<int>, limit: Option<int>,
                         sort: SortArg, one: Option<bool>, projection: Option<M>,
                         session: Option<S>): (r: Result<Query<M, E, S>>)
    ensures r.Ok? ==> r.value.findExpressions == q.findExpressions + args
  {
    var us: seq<FieldUpdate<M, E>> := [SetFindExpressions(q.findExpressions + args)];
    SingleUpdate(q, us[0]);
    var r0 := ApplyUpdates(q, us).value;
    var r1 :- if skip.Some? then Skip(r0, skip.value) else Ok(r0);
    var r2 :- if limit.Some? then Limit(r1, limit.value) else Ok(r1);
    var r3 :- if !sort.Null? then Sort(r2, [sort]) else Ok(r2);
    var r4 := if one.Some? then One(r3, one.value).value else r3;
    var r5 := if projection.Some? then Project(r4, projection).value else r4;
    Ok(if session.Some? then SetSession(r5, session) else r5)
  }

  /**
   * What `find` produces: it fails exactly when a given bound is negative or
   * the given sort specification is rejected (the first failing step's
   * error is raised), and otherwise each field holds the value of the last
   * step that assigned it.
   */
  lemma FindSpec<M, E, S>(q: Query<M, E, S>, args: seq<E>, skip: Option<int>, limit: Option<int>,
                          sort: SortArg, one: Option<bool>, projection: Option<M>, session: Option<S>)
    ensures var r := Find(q, args, skip, limit, sort, one, projection, session);
      (r.Fail? <==> (skip.Some? && skip.value < 0) || (limit.Some? && limit.value < 0) ||
                    (!sort.Null? && Sort(q, [sort]).Fail?)) &&
      (skip.Some? && skip.value < 0 ==> r == Fail(NegativeBound)) &&
      (limit.Some? && limit.value < 0 ==> r == Fail(NegativeBound)) &&
      (r.Fail? && !(skip.Some? && skip.value < 0) && !(limit.Some? && limit.value < 0) ==>
         r.error == Sort(q, [sort]).error)
    ensures var r := Find(q, args, skip, limit, sort, one, projection, session);
      r.Ok? ==>
        var f := r.value;
        f.documentModel == q.documentModel &&
        f.findExpressions == q.findExpressions + args &&
        f.skipNumber == (if skip.Some? then skip.value else q.skipNumber) &&
        f.limitNumber == (if one.Some? then 1 else if limit.Some? then limit.value else q.limitNumber) &&
        f.isSingle == (if one.Some? then one.value else q.isSingle) &&
        f.sortExpressions == (if sort.Null? then q.sortExpressions else Sort(q, [sort]).value.sortExpressions) &&
        f.projectionModel == (if projection.Some? then projection.value else q.projectionModel) &&
        f.session == (if session.Some? then session else q.session)
  {
    SingleUpdate(q, SetFindExpressions(q.findExpressions + args));
    var r0 := q.(findExpressions := q.findExpressions + args);
    if skip.Some? && skip.value < 0 {
      return;
    }
    var r1 := if skip.Some? then r0.(skipNumber := skip.value) else r0;
    if limit.Some? && limit.value < 0 {
      return;
    }
    var r2 := if limit.Some? then r1.(limitNumber := limit.value) else r1;
    SortReadsOnlySortList(q, r2, [sort]);
  }

  /** `find_one(*args, **kwargs)`: `find(*args, **kwargs).one()`. */
  function FindOne<M, E, S>(q: Query<M, E, S>, args: seq<E>, skip: Option<int>, limit: Option<int>,
                            sort: SortArg, one: Option<bool>, projection: Option<M>,
                            session: Option<S>): (r: Result<Query<M, E, S>>)
    ensures var f := Find(q, args, skip, limit, sort, one, projection, session);
            (r.Ok? <==> f.Ok?) &&
            (r.Fail? ==> r.error == f.error) &&
            (r.Ok? ==> r.value.isSingle && r.value.limitNumber == 1 &&
                       r.value == f.value.(isSingle := true, limitNumber := 1))
  {
    var f :- Find(q, args, skip, limit, sort, one, projection, session);
    One(f, true)
  }

  /** `find(limit=n, one=b)` ends with a limit of 1, whichever the flag and the bound. */
  lemma FindOneOverridesLimit<M, E, S>(q: Query<M, E, S>, args: seq<E>, n: nat, b: bool)
    ensures Find(q, args, None, Some(n), Null, Some(b), None, None).Ok?
    ensures Find(q, args, None, Some(n), Null, Some(b), None, None).value.limitNumber == 1
    ensures Find(q, args, None, Some(n), Null, Some(b), None, None).value.isSingle == b
  {
  }

  /** Two `find` calls in a row list the earlier expressions first. */
  lemma FindAppends<M, E, S>(q: Query<M, E, S>, a: seq<E>, b: seq<E>)
    ensures Find(q, a, None, None, Null, None, None, None).Ok?
    ensures var q1 := Find(q, a, None, None, Null, None, None, None).value;
            Find(q1, b, None, None, Null, None, None, None).Ok? &&
            Find(q1, b, None, None, Null, None, None, None).value.findExpressions == q.findExpressions + a + b
  {
  }
}
