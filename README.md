# Beanie find-query builder, modelled in Dafny

This project models `FindQuery`, the immutable query builder of the Beanie
object-document mapper for MongoDB, together with the `set_session` setter it
inherits from `SessionMethods`. A find query holds the document model, the
projection model, the list of find expressions, the list of sort keys, the
skip and limit bounds, the single-result flag and the session handle. Each
builder call (`limit`, `skip`, `project`, `one`, `sort`, `find`/`find_many`,
`find_one`, `set_session`) copies the query, assigns a few fields and re-runs
their validators, and returns the copy. When the query runs, its state is
turned into the filter and the parameter set of one collection call.

Modules:

- `Results` (`results.dfy`): `Option`, `Result` and the three errors the
  builder raises: `WrongSortType` (the sort item validator rejects an item),
  `EmptySort` (the `ValueError` of `sort()`), and `NegativeBound` (the
  `ge=0` constraint on skip or limit fails). `WrongSortType` and
  `NegativeBound` both reach the caller as a pydantic `ValidationError`.
- `SortSpec` (`sort_spec.dfy`): sort directions, keys, raw sort arguments and
  the two sort validators.
- `QueryState` (`query_state.dfy`): the query record, its defaults, one
  validated field assignment, and `_copy_update` as a loop over the
  assignments, proved equal to its specification `ApplyUpdates`.
- `Session` (`session.dfy`): `set_session`.
- `FindQuery` (`find_query.dfy`): the builder methods.
- `Execution` (`execution.dfy`): `get_filter_query`, `_find_query_params`, and
  which collection call `await`, `motor_cursor` and `count` issue.

The model classes, the find expressions and the session handle are opaque
type parameters `M`, `E` and `S`. The external `get_projection` is a function
parameter `M -> P`. The `And` operator is the constructor `Filter.And` over
the sequence of expressions. A query is a value, so a builder call cannot
change its receiver. In the source the receiver is also left alone: `copy()`
is shallow, but `sort` and `find` build new lists (`list(args) + ...`,
`... + list(args)`) instead of mutating the shared ones.

Behaviour of the source worth noting:

- The sort item validator raises `TypeError("Wrong sort type")` for a
  rejected item. It runs under `validate_assignment`, so pydantic catches it
  and the caller receives a `ValidationError`. A failed `ge=0` bound on skip
  or limit reaches the caller as a `ValidationError` too. Only `sort()` with
  no arguments raises its `ValueError` directly.
- `project(None)` does not store `None`. Assignment re-runs the
  `default_projection_model` validator, so the projection model becomes the
  document model.
- `one(False)` still sets the stored limit to 1. After it, the effective
  limit is 1 even though the query is not in single mode.

## Model

| member | source | states |
|---|---|---|
| `QueryState.Init` | beanie/odm/queries/find.py:57-69 | a new query has the document model as its projection model when none is given, no find or sort expressions, skip and limit 0, single mode off and no session |
| `QueryState.DefaultProjection` | beanie/odm/queries/find.py:67-69 | a given projection model is kept; a missing one becomes the document model |
| `QueryState.Assign` | beanie/odm/queries/find.py:61-93 | assigning one field re-runs its validators: it fails exactly when a bound is negative or a sort item is rejected, with that error; on success the field holds the validated value and no other field changes |
| `QueryState.ApplyUpdates` | beanie/odm/queries/find.py:96-101 | applying the keyword updates in order succeeds exactly when each is admissible; otherwise it raises the error of the first rejected update; fields not named keep their values, and each named field holds the last value assigned to it |
| `QueryState.CopyUpdate` | beanie/odm/queries/find.py:96-101 | the copy-then-setattr loop returns exactly what `ApplyUpdates` specifies, and stops at the first assignment that raises |
| `SortSpec.ParseKey` | beanie/odm/queries/find.py:77-83 | a string with a '+' or '-' prefix parses to the key that renders back to it; a bare string is an ascending key on the whole string |
| `SortSpec.ParseRender` | beanie/odm/queries/find.py:78-81 | parsing the prefixed rendering of any key gives that key back |
| `SortSpec.PlusIsOptional` | beanie/odm/queries/find.py:78-83 | "+f" and "f" both give (f, ASCENDING) when f has no prefix of its own |
| `SortSpec.MinusIsDescending` | beanie/odm/queries/find.py:80-81 | "-f" gives (f, DESCENDING), with exactly one character stripped |
| `SortSpec.NormalizeItem` | beanie/odm/queries/find.py:71-85 | an item is accepted exactly when it is a string, a tuple or None; a rejected item raises WrongSortType; only None gives no key; a tuple is returned unchanged; a string yields its parsed key |
| `SortSpec.DropNone` | beanie/odm/queries/find.py:87-89 | the result holds exactly the non-None items of the input and is no longer than it |
| `SortSpec.DropNoneConcat` | beanie/odm/queries/find.py:87-89 | dropping None distributes over concatenation, so the kept items stay in their relative order |
| `SortSpec.DropNoneNoNull` | beanie/odm/queries/find.py:87-89 | a list without None is left unchanged |
| `SortSpec.DropNoneIdempotent` | beanie/odm/queries/find.py:87-89 | dropping None twice is the same as dropping it once |
| `SortSpec.NormalizeEach` | beanie/odm/queries/find.py:71-85 | normalising every item succeeds exactly when every item is accepted, and then yields the keys of the non-None items in order; otherwise it raises WrongSortType |
| `SortSpec.ValidateSort` | beanie/odm/queries/find.py:71-89 | the validator pipeline (drop None, then normalise) succeeds exactly when every item is accepted, and yields the keys of the non-None items in order |
| `SortSpec.ValidatorOrderIrrelevant` | beanie/odm/queries/find.py:73-74 | normalising first and dropping None afterwards gives the same outcome as dropping None first |
| `SortSpec.ValidatedKeysComeFromItems` | beanie/odm/queries/find.py:87-89 | every stored sort key comes from a string or tuple item of the assigned list, never from None |
| `SortSpec.ValidatePrepend` | beanie/odm/queries/find.py:152 | validating new items in front of already canonical keys fails exactly when a new item is rejected; otherwise it yields the new keys followed by the old keys unchanged |
| `Session.SetSession` | beanie/odm/interfaces/session.py:12-18 | the copy has the given session, and every other field equals the receiver's |
| `Session.SetSessionDefault` | beanie/odm/interfaces/session.py:10-12 | `set_session()` with its default argument leaves the session None and keeps every other field |
| `Session.LastSessionWins` | beanie/odm/interfaces/session.py:18 | of two consecutive `set_session` calls the later one wins |
| `Session.SetSessionUndo` | beanie/odm/interfaces/session.py:18 | setting the previous session back yields the original query |
| `FindQuery.Limit` | beanie/odm/queries/find.py:103-109 | a negative limit raises NegativeBound; otherwise only `limit_number` changes, to n |
| `FindQuery.Skip` | beanie/odm/queries/find.py:111-117 | a negative skip raises NegativeBound; otherwise only `skip_number` changes, to n |
| `FindQuery.Project` | beanie/odm/queries/find.py:119-129 | never fails; only the projection model changes, to the given model, or to the document model when None is given |
| `FindQuery.One` | beanie/odm/queries/find.py:131-132 | never fails; `is_single` becomes the flag and `limit_number` becomes 1 whatever the flag; nothing else changes |
| `FindQuery.Sort` | beanie/odm/queries/find.py:134-153 | no arguments, or a lone list that spreads to none, raise EmptySort; otherwise it fails exactly when an item is rejected, and on success the validated new keys come before the old keys and nothing else changes |
| `FindQuery.SortReadsOnlySortList` | beanie/odm/queries/find.py:146-153 | whether `sort` succeeds, and the sort list it produces, depend only on the arguments and the existing sort list |
| `FindQuery.SortSpreadsList` | beanie/odm/queries/find.py:148-149 | `sort([a, b, ...])` equals `sort(a, b, ...)`, so `sort([])` raises EmptySort |
| `FindQuery.SortPrecedence` | beanie/odm/queries/find.py:151-152 | after two sort calls the later call's keys come first, then the earlier call's, then the original keys |
| `FindQuery.SortTwoFields` | beanie/odm/queries/find.py:151-152 | `sort("a").sort("b")` sorts by (b, ASCENDING) first, then by (a, ASCENDING) |
| `FindQuery.Find` | beanie/odm/queries/find.py:179 | a successful `find` lists the old expressions first and the new ones after them |
| `FindQuery.FindSpec` | beanie/odm/queries/find.py:156-190 | `find` fails exactly when a given bound is negative or the given sort is rejected, raising the first failing step's error; otherwise skip, limit, sort, one, projection and session are applied in that order, each only when given, so `one` overrides `limit` |
| `FindQuery.FindOne` | beanie/odm/queries/find.py:348-352 | `find_one` fails exactly when `find` does, with the same error; otherwise it is `find`'s result with single mode on and limit 1 |
| `FindQuery.FindOneOverridesLimit` | beanie/odm/queries/find.py:182-184 | `find(limit=n, one=b)` ends with limit 1 and single mode b, for every n and b |
| `FindQuery.FindAppends` | beanie/odm/queries/find.py:179 | two `find` calls in a row keep the original expressions, then the first call's, then the second call's |
| `Execution.FilterQuery` | beanie/odm/queries/find.py:200-204 | the filter is `{}` exactly when there are no find expressions; otherwise it is `And` over all of them in insertion order |
| `Execution.FindParams` | beanie/odm/queries/find.py:207-215 | the parameter set holds the filter, the projection of the projection model and the session; the limit is 1 in single mode and the stored limit otherwise; skip and sort are passed through unchanged |
| `Execution.AwaitCall` | beanie/odm/queries/find.py:218-232 | awaiting issues a find_one call exactly in single mode, and a find call otherwise, both with the assembled parameters |
| `Execution.CursorCall` | beanie/odm/queries/find.py:235-239 | the cursor is a find call with the assembled parameters |
| `Execution.Count` | beanie/odm/queries/find.py:242-252 | counting passes only the filter |
| `Execution.CountIgnoresPagination` | beanie/odm/queries/find.py:248-252 | setting skip and limit does not change the count call |
| `Execution.OneForcesLimit` | beanie/odm/queries/find.py:131-132 | after `one(flag)` the effective limit is 1, even when the flag is false |
| `Execution.LimitAfterOne` | beanie/odm/queries/find.py:211 | `one().limit(n)` stores limit n, but single mode keeps the effective limit at 1 |
| `Execution.OneFalseAfterLimit` | beanie/odm/queries/find.py:131-132 | `limit(n).one(False)` turns single mode off and still leaves both the stored and the effective limit at 1 |
| `Execution.FilterAccumulates` | beanie/odm/queries/find.py:179 | `find(p1).find(p2)` on a query without expressions filters by `And(p1, p2)`, with p1 first |
| `Execution.FreshQueryDefaults` | beanie/odm/queries/find.py:57-69 | a query built from a document model alone has the filter `{}`, the document model's projection, no session, limit 0, skip 0 and no sort keys |

## Left out

- Asynchronous I/O: the Motor collection calls (`find_one`, `find`, `count_documents`), their results, `to_list` and `parse_obj` are not modelled. `AwaitCall`, `CursorCall` and `Count` only name the call and its parameters.
- `get_projection` (beanie/odm/utils/projection.py) is not part of this model. It is a function parameter.
- The `And` operator (beanie/odm/operators/find/logical.py) is not part of this model. It is an opaque constructor over the expressions.
- `get_projection_model` (find.py:196-197) is a plain field read. The model needs no member for it: `projection_model` has type `M`, so it is never None.
- `find_many` (find.py:190) is another name for `find`, so `Find` models both.
- Pydantic's general coercion is left out. This covers converting a tuple to `Tuple[str, SortDirection]` and non-integer values for skip and limit. Only the explicit validators and the `ge=0` bound are modelled.
- The commented-out write-path methods in find.py:257-399 (`upsert`, `update`, `delete`, `aggregate`, `update_one`, `delete_one`, `replace_one`) are dead code. The live `find_one` at find.py:348-352 inside that range is modelled as `FindOne`.
- The `cursor` field (find.py:65) is not represented. Nothing in the modelled code reads or assigns it.
- Errors: the model keeps `WrongSortType` and `NegativeBound` apart, but the source raises both to the caller as one pydantic `ValidationError`. They differ there only in the error it wraps.
- The contents of a session handle are opaque. It is passed through as a value of type `S`.
- Aliasing: the source's `copy()` is shallow. The model treats every query as a value, which is sound only because no builder mutates a list it shares with the receiver.
- `FindQuery.Find`: its own contract states only the append order of the expressions. The full behaviour of `find` is stated by the lemma `FindSpec`.
