/**
 * Sort specifications of a find query and the two validators that normalise
 * them when `sort_expressions` is assigned: `validate_sort_no_none` drops
 * every `None` item of the list, and `validate_sort_items` turns each
 * remaining item into a canonical (field, direction) key.
 */
module SortSpec {
  import opened Results

  /** `SortDirection`: ascending or descending. */
  datatype Dir = Ascending | Descending

  /** A canonical sort key, the tuple `(field, direction)`. */
  datatype SortKey = SortKey(field: string, dir: Dir)

  /** A sort specification as a caller passes it, before validation. */
  datatype SortArg =
    | Str(text: string)          // "field", "+field" or "-field"
    | Pair(key: SortKey)         // an explicit (field, direction) tuple
    | Null                       // Python's None
    | List(items: seq<SortArg>)  // a Python list of specifications
    | Other                      // any value of another type

  /** The items the item validator accepts: strings, tuples and `None`. */
  predicate Accepted(a: SortArg) {
    a.Str? || a.Pair? || a.Null?
  }

  /** Every item is a string or a tuple, so it denotes exactly one key. */
  predicate AllKeys(xs: seq<SortArg>) {
    forall i :: 0 <= i < |xs| ==> xs[i].Str? || xs[i].Pair?
  }

  /** Every item is accepted by the item validator. */
  predicate AllAccepted(xs: seq<SortArg>) {
    forall i :: 0 <= i < |xs| ==> Accepted(xs[i])
  }

  /** The canonical prefixed text of a key: the inverse of ParseKey. */
  function Render(k: SortKey): (s: string)
    ensures |s| == |k.field| + 1
  {
    (if k.dir == Ascending then "+" else "-") + k.field
  }

  /** A string is bare when it carries no direction prefix. */
  predicate Bare(s: string) {
    s == [] || (s[0] != '+' && s[0] != '-')
  }

  /**
   * The string branch of `validate_sort_items`: a leading '+' or '-' is
   * stripped and gives the direction; a bare string sorts ascending.
   */
  function ParseKey(s: string): (k: SortKey)
    ensures !Bare(s) ==> Render(k) == s
    ensures Bare(s) ==> k == SortKey(s, Ascending)
  {
    if |s| > 0 && s[0] == '+' then SortKey(s[1..], Ascending)
    else if |s| > 0 && s[0] == '-' then SortKey(s[1..], Descending)
    else SortKey(s, Ascending)
  }

  /** Rendering a key and parsing it back gives the key itself. */
  lemma ParseRender(k: SortKey)
    ensures ParseKey(Render(k)) == k
  {
  }

  /** "+f" and "f" denote the same ascending key when f itself is bare. */
  lemma PlusIsOptional(f: string)
    requires Bare(f)
    ensures ParseKey("+" + f) == ParseKey(f) == SortKey(f, Ascending)
  {
  }

  /** "-f" is the descending key on f, exactly one character being stripped. */
  lemma MinusIsDescending(f: string)
    ensures ParseKey("-" + f) == SortKey(f, Descending)
  {
  }

  /**
   * `validate_sort_items` on one item: `None` is passed on (as None), a tuple
   * is returned unchanged, a string is parsed, anything else is a TypeError.
   */
  function NormalizeItem(a: SortArg): (r: Result<Option<SortKey>>)
    ensures r.Ok? <==> Accepted(a)
    ensures r.Fail? ==> r.error == WrongSortType
    ensures r.Ok? ==> (r.value.None? <==> a.Null?)
    ensures a.Pair? ==> r == Ok(Some(a.key))
    ensures a.Str? ==> r == Ok(Some(ParseKey(a.text)))
  {
    match a
    case Null => Ok(None)
    case Pair(k) => Ok(Some(k))
    case Str(s) => Ok(Some(ParseKey(s)))
    case _ => Fail(WrongSortType)
  }

  /** The key a string or tuple item denotes. */
  function KeyOf(a: SortArg): SortKey
    requires a.Str? || a.Pair?
  {
    if a.Str? then ParseKey(a.text) else a.key
  }

  /** The keys of a list of strings and tuples, item by item. */
  function Keys(xs: seq<SortArg>): (ks: seq<SortKey>)
    requires AllKeys(xs)
    ensures |ks| == |xs|
    ensures forall i :: 0 <= i < |xs| ==> ks[i] == KeyOf(xs[i])
  {
    if xs == [] then [] else [KeyOf(xs[0])] + Keys(xs[1..])
  }

  /** The tuples of a list of canonical keys, as they are re-validated on reassignment. */
  function Lift(ks: seq<SortKey>): (xs: seq<SortArg>)
    ensures |xs| == |ks| && AllKeys(xs)
    ensures forall i :: 0 <= i < |ks| ==> xs[i] == Pair(ks[i])
  {
    seq(|ks|, i requires 0 <= i < |ks| => Pair(ks[i]))
  }

  /** Already canonical keys come back unchanged from Keys. */
  lemma KeysOfLift(ks: seq<SortKey>)
    ensures Keys(Lift(ks)) == ks
  {
  }

  /**
   * `validate_sort_no_none`: the list without its `None` items. The result
   * holds exactly the non-`None` items of the input.
   */
  function DropNone(xs: seq<SortArg>): (r: seq<SortArg>)
    ensures |r| <= |xs|
    ensures forall x :: x in r <==> x in xs && !x.Null?
  {
    if xs == [] then []
    else if xs[0].Null? then DropNone(xs[1..])
    else [xs[0]] + DropNone(xs[1..])
  }

  /** DropNone distributes over concatenation, so it keeps the relative order of the items. */
  lemma {:induction false} DropNoneConcat(a: seq<SortArg>, b: seq<SortArg>)
    ensures DropNone(a + b) == DropNone(a) + DropNone(b)
  {
    if a == [] {
      assert a + b == b;
    } else {
      assert (a + b)[1..] == a[1..] + b;
      DropNoneConcat(a[1..], b);
    }
  }

  /** A list without `None` items is left as it is; in particular DropNone is idempotent. */
  lemma {:induction false} DropNoneNoNull(xs: seq<SortArg>)
    requires forall i :: 0 <= i < |xs| ==> !xs[i].Null?
    ensures DropNone(xs) == xs
  {
    if xs != [] {
      DropNoneNoNull(xs[1..]);
    }
  }

  lemma DropNoneIdempotent(xs: seq<SortArg>)
    ensures DropNone(DropNone(xs)) == DropNone(xs)
  {
  }

  /**
   * `validate_sort_items` applied to every item of a list, dropping the
   * `None` results: it succeeds exactly when every item is accepted, and
   * then yields the keys of the non-`None` items, in order.
   */
  function NormalizeEach(xs: seq<SortArg>): (r: Result<seq<SortKey>>)
    ensures r.Ok? <==> AllAccepted(xs)
    ensures r.Fail? ==> r.error == WrongSortType
    ensures r.Ok? ==> AllKeys(DropNone(xs)) && r.value == Keys(DropNone(xs))
  {
    if xs == [] then Ok([])
    else
      var k :- NormalizeItem(xs[0]);
      var rest :- NormalizeEach(xs[1..]);
      Ok((if k.Some? then [k.value] else []) + rest)
  }

  /**
   * The validator pipeline run on an assigned sort list: drop `None`, then
   * normalise each item.
   */
  function ValidateSort(raw: seq<SortArg>): (r: Result<seq<SortKey>>)
    ensures r.Ok? <==> AllAccepted(raw)
    ensures r.Fail? ==> r.error == WrongSortType
    ensures r.Ok? ==> AllKeys(DropNone(raw)) && r.value == Keys(DropNone(raw))
  {
    var d := DropNone(raw);
    assert AllAccepted(d) <==> AllAccepted(raw) by {
      assert forall i :: 0 <= i < |d| ==> d[i] in raw;
      assert forall i :: 0 <= i < |raw| && !raw[i].Null? ==> raw[i] in d;
    }
    DropNoneIdempotent(raw);
    NormalizeEach(d)
  }

  /**
   * The validators may run in either order: normalising first (where `None`
   * passes through and is dropped afterwards) gives the same outcome as
   * dropping `None` first.
   */
  lemma ValidatorOrderIrrelevant(raw: seq<SortArg>)
    ensures ValidateSort(raw) == NormalizeEach(raw)
  {
  }

  /** The stored list never contains `None`: every stored key comes from a string or tuple item. */
  lemma ValidatedKeysComeFromItems(raw: seq<SortArg>, i: nat)
    requires ValidateSort(raw).Ok? && i < |ValidateSort(raw).value|
    ensures exists a :: a in raw && (a.Str? || a.Pair?) && ValidateSort(raw).value[i] == KeyOf(a)
  {
  }

  /** Keys distributes over concatenation. */
  lemma KeysConcat(a: seq<SortArg>, b: seq<SortArg>)
    requires AllKeys(a) && AllKeys(b)
    ensures AllKeys(a + b) && Keys(a + b) == Keys(a) + Keys(b)
  {
  }

  /**
   * Validating new items in front of already canonical keys: it fails
   * exactly when a new item is rejected, and otherwise yields the new keys
   * followed by the old keys unchanged.
   */
  lemma ValidatePrepend(args: seq<SortArg>, old_keys: seq<SortKey>)
    ensures ValidateSort(args + Lift(old_keys)).Ok? <==> AllAccepted(args)
    ensures AllAccepted(args) ==>
      AllKeys(DropNone(args)) &&
      ValidateSort(args + Lift(old_keys)).value == Keys(DropNone(args)) + old_keys
  {
    var l := Lift(old_keys);
    DropNoneConcat(args, l);
    assert forall i :: 0 <= i < |l| ==> !l[i].Null?;
    DropNoneNoNull(l);
    assert AllAccepted(args + l) <==> AllAccepted(args) by {
      assert forall i :: 0 <= i < |args| ==> (args + l)[i] == args[i];
      assert forall i :: 0 <= i < |l| ==> (args + l)[|args| + i] == l[i];
    }
    if AllAccepted(args) {
      var d := DropNone(args);
      assert AllKeys(d) by {
        assert forall i :: 0 <= i < |d| ==> d[i] in args;
      }
      KeysConcat(d, l);
      KeysOfLift(old_keys);
    }
  }
}
