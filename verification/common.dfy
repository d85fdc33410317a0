/** Small vocabulary shared by every engine: optional values, Python's
    three-valued check results, `list.index` and Python subscripts. */
module Common {

  /** A value that may be missing (Python `None`). */
  datatype Option<T> = None | Some(value: T)

  /** What a validation helper of the source returns. The source
      distinguishes `False` from `None` in some callers (`is not False`),
      so the three cases are kept apart. */
  datatype PyCheck = PyTrue | PyFalse | PyNone

  /** The Python exceptions the modelled code can raise. */
  datatype Exc = ValueError | IndexError | KeyError | AttributeError | GameplayError

  /** A value, or the exception raised instead of returning one. */
  datatype Result<T> = Ok(value: T) | Raise(exc: Exc)

  /** Python truthiness of a check result: only `True` is truthy. */
  predicate Truthy(c: PyCheck) {
    c == PyTrue
  }

  /** Python's `list.index(x)`: the lowest position holding `x`, or `None`
      where Python raises `ValueError`. */
  function IndexOf<T(==)>(s: seq<T>, x: T): (r: Option<nat>)
    ensures r.Some? ==> r.value < |s| && s[r.value] == x
    ensures r.Some? ==> forall j :: 0 <= j < r.value ==> s[j] != x
    ensures r.None? <==> x !in s
  {
    if |s| == 0 then None
    else if s[0] == x then Some(0)
    else
      match IndexOf(s[1..], x)
      case None => None
      case Some(k) => Some(k + 1)
  }

  /** Python's subscript `s[k]`: a negative `k` counts from the end, and
      anything outside `-len(s) .. len(s)-1` raises `IndexError` (`None`). */
  function PyIndex<T>(s: seq<T>, k: int): (r: Option<T>) {
    if 0 <= k < |s| then Some(s[k])
    else if -|s| <= k < 0 then Some(s[|s| + k])
    else None
  }

  /** No element occurs twice. */
  predicate Distinct<T(==)>(s: seq<T>) {
    forall i, j :: 0 <= i < j < |s| ==> s[i] != s[j]
  }

  /** Keeps the elements of `s` that satisfy `keep`, in order. */
  function Filter<T(!new)>(keep: T -> bool, s: seq<T>): (r: seq<T>)
    ensures |r| <= |s|
    ensures forall x :: x in r <==> x in s && keep(x)
  {
    if |s| == 0 then []
    else if keep(s[0]) then [s[0]] + Filter(keep, s[1..])
    else Filter(keep, s[1..])
  }

  /** Applies `f` to every element. */
  function Map<T, U>(f: T -> U, s: seq<T>): (r: seq<U>)
    ensures |r| == |s|
    ensures forall i :: 0 <= i < |s| ==> r[i] == f(s[i])
  {
    if |s| == 0 then [] else [f(s[0])] + Map(f, s[1..])
  }

  lemma DistinctConcat<T>(a: seq<T>, b: seq<T>)
    requires Distinct(a) && Distinct(b)
    requires forall x :: x in a ==> x !in b
    ensures Distinct(a + b)
  {
    forall i, j | 0 <= i < j < |a + b|
      ensures (a + b)[i] != (a + b)[j]
    {
      if j >= |a| && i < |a| {
        assert (a + b)[i] in a;
        assert (a + b)[j] == b[j - |a|];
      }
    }
  }

  lemma DistinctFilter<T(!new)>(keep: T -> bool, s: seq<T>)
    requires Distinct(s)
    ensures Distinct(Filter(keep, s))
  {
    if |s| > 0 {
      assert Distinct(s[1..]);
      DistinctFilter(keep, s[1..]);
      if keep(s[0]) {
        assert s[0] !in s[1..];
        DistinctConcat([s[0]], Filter(keep, s[1..]));
      }
    }
  }

  /** A duplicate-free sequence is at least as long as any set it covers. */
  lemma DistinctCovers<T>(s: seq<T>, xs: set<T>)
    requires Distinct(s)
    requires forall x :: x in xs ==> x in s
    ensures |xs| <= |s|
  {
    if |s| == 0 {
      assert xs == {};
    } else {
      assert Distinct(s[1..]);
      var rest := xs - {s[0]};
      forall x | x in rest ensures x in s[1..] {
        var k :| 0 <= k < |s| && s[k] == x;
        assert k != 0;
      }
      DistinctCovers(s[1..], rest);
    }
  }

  /** A duplicate-free sequence is exactly as long as the set it enumerates. */
  lemma DistinctLength<T>(s: seq<T>, xs: set<T>)
    requires Distinct(s)
    requires forall x :: x in s <==> x in xs
    ensures |s| == |xs|
  {
    if |s| == 0 {
      assert xs == {};
    } else {
      assert Distinct(s[1..]);
      var rest := xs - {s[0]};
      forall x ensures x in s[1..] <==> x in rest {
        if x in s[1..] {
          var k :| 0 <= k < |s[1..]| && s[1..][k] == x;
          assert s[k + 1] == x;
        }
        if x in rest {
          var k :| 0 <= k < |s| && s[k] == x;
          assert k != 0;
          assert s[1..][k - 1] == x;
        }
      }
      DistinctLength(s[1..], rest);
    }
  }
}
