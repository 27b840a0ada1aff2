/** Shared vocabulary: optional values, the Python exceptions the core can
    raise, encoded rows, and Python dictionaries as ordered association lists. */
module Common {

  datatype Option<T> = None | Some(value: T)

  /** The Python exceptions that the modelled code lets escape. */
  datatype Error = ValueError | TypeError | IndexError | KeyError

  datatype Result<T> = Ok(value: T) | Err(error: Error)

  /** An encoded row: one small integer code per feature column. */
  type Row = seq<int>

  /** A Python dict, in insertion order (the order `keys()` and `items()` use). */
  type Dict<V> = seq<(int, V)>

  /** A genuine dictionary has no key twice. */
  predicate IsDict<V>(d: Dict<V>)
  {
    forall i, j :: 0 <= i < j < |d| ==> d[i].0 != d[j].0
  }

  function Keys<V>(d: Dict<V>): seq<int>
  {
    seq(|d|, i requires 0 <= i < |d| => d[i].0)
  }

  /** `d[k]`: the value stored under key k, if any. */
  function Get<V>(d: Dict<V>, k: int): (r: Option<V>)
    ensures r.Some? <==> exists i :: 0 <= i < |d| && d[i].0 == k
    ensures r.Some? && IsDict(d) ==> forall i :: 0 <= i < |d| && d[i].0 == k ==> d[i].1 == r.value
  {
    if |d| == 0 then None
    else if d[0].0 == k then Some(d[0].1)
    else
      var r := Get(d[1..], k);
      assert forall i :: 1 <= i < |d| ==> d[i] == d[1..][i - 1];
      r
  }

  /** Every element equals the first one (vacuously true of an empty sequence). */
  predicate Uniform<T(==)>(s: seq<T>)
  {
    forall i :: 0 <= i < |s| ==> s[i] == s[0]
  }

  /** Python's `s.count(x)`. */
  function Count<T(==)>(s: seq<T>, x: T): (c: nat)
    ensures c <= |s|
  {
    if |s| == 0 then 0
    else Count(s[..|s| - 1], x) + (if s[|s| - 1] == x then 1 else 0)
  }

  lemma {:induction false} CountBounds<T>(s: seq<T>, x: T)
    ensures Count(s, x) <= |s|
    ensures Count(s, x) > 0 <==> x in s
    ensures Count(s, x) == |s| <==> forall i :: 0 <= i < |s| ==> s[i] == x
  {
    if |s| > 0 {
      CountBounds(s[..|s| - 1], x);
      assert forall i :: 0 <= i < |s| - 1 ==> s[..|s| - 1][i] == s[i];
      assert s == s[..|s| - 1] + [s[|s| - 1]];
    }
  }

  lemma {:induction false} CountConcat<T>(a: seq<T>, b: seq<T>, x: T)
    ensures Count(a + b, x) == Count(a, x) + Count(b, x)
  {
    if |b| == 0 {
      assert a + b == a;
    } else {
      assert (a + b)[..|a + b| - 1] == a + b[..|b| - 1];
      CountConcat(a, b[..|b| - 1], x);
    }
  }
}
