/** `replace` and `make_readable` of data_process.py: encoding a column of
    raw cells into integer codes with a feature dictionary, and decoding an
    encoded row back into the dictionaries' strings. String-to-float parsing
    is a parameter (`toFloat`), and input numbers are exact reals. */
module DataProcess {
  import opened Common

  /** A raw cell of a column: a parsed number (continuous columns) or a
      string (categorical columns). */
  datatype Cell = Num(x: real) | Str(s: string)

  /** `len(set(my_list))`. */
  function Distinct(xs: seq<Cell>): nat
  {
    |set c | c in xs|
  }

  /** The keys run 0, 1, ..., n-1 in insertion order, as every dictionary
      the encoder builds does. */
  predicate KeysInOrder<V>(d: Dict<V>)
  {
    forall k :: 0 <= k < |d| ==> d[k].0 == k
  }

  // ---------------------------------------------------------------------
  // Categorical path: reverse lookup

  /** `list(d.values()).index(x)`: the first position whose value is x. */
  function IndexOfValue(d: Dict<string>, x: Cell): (r: Option<nat>)
    ensures r.Some? ==> r.value < |d| && Str(d[r.value].1) == x
    ensures r.Some? ==> forall p :: 0 <= p < r.value ==> Str(d[p].1) != x
    ensures r.None? <==> forall p :: 0 <= p < |d| ==> Str(d[p].1) != x
  {
    if |d| == 0 then None
    else if Str(d[0].1) == x then Some(0)
    else
      match IndexOfValue(d[1..], x)
      case None =>
        assert forall p :: 1 <= p < |d| ==> d[p] == d[1..][p - 1];
        None
      case Some(p) => Some(p + 1)
  }

  /** The list comprehension of the categorical branch: each cell is
      replaced by the key at the position of its value; the first cell that
      is not among the values raises ValueError. */
  function CategoricalCodes(xs: seq<Cell>, d: Dict<string>): (r: Result<seq<int>>)
    ensures r.Ok? <==> forall j :: 0 <= j < |xs| ==> IndexOfValue(d, xs[j]).Some?
    ensures r.Err? ==> r.error == ValueError
    ensures r.Ok? ==> |r.value| == |xs|
  {
    if |xs| == 0 then Ok([])
    else
      match CategoricalCodes(xs[..|xs| - 1], d)
      case Err(e) => Err(e)
      case Ok(codes) =>
        match IndexOfValue(d, xs[|xs| - 1])
        case None => Err(ValueError)
        case Some(p) => Ok(codes + [d[p].0])
  }

  // ---------------------------------------------------------------------
  // Continuous path: threshold ladder

  /** What the inner `for k, v in lookup_dict.items()` loop does for one cell,
      starting at entry i: `Some(k)` when it appends k and breaks, `None` when
      it runs out of entries without appending. The overflow key n-1 is
      appended before its string is looked at; otherwise `float(v)` may raise
      ValueError and comparing a string cell with it raises TypeError. */
  function BucketFrom(x: Cell, d: Dict<string>, i: nat, toFloat: string -> Option<real>): (r: Result<Option<int>>)
    ensures r.Ok? && r.value.Some? ==> exists k :: i <= k < |d| && d[k].0 == r.value.value
    ensures r.Err? ==> r.error == ValueError || (r.error == TypeError && x.Str?)
    ensures x.Num? && (forall k :: i <= k < |d| ==> toFloat(d[k].1).Some?) ==> r.Ok?
    decreases |d| - i
  {
    if i >= |d| then Ok(None)
    else if d[i].0 == |d| - 1 then Ok(Some(d[i].0))
    else
      match toFloat(d[i].1)
      case None => Err(ValueError)
      case Some(t) =>
        if x.Str? then Err(TypeError)
        else if x.x <= t then Ok(Some(d[i].0))
        else BucketFrom(x, d, i + 1, toFloat)
  }

  /** The outer loop of the continuous branch over a prefix of the column. */
  function Ladder(xs: seq<Cell>, d: Dict<string>, toFloat: string -> Option<real>): (r: Result<seq<int>>)
    ensures r.Ok? ==> |r.value| <= |xs|
    ensures r.Err? ==> r.error == ValueError || r.error == TypeError
    ensures (forall j :: 0 <= j < |xs| ==> xs[j].Num?) && (forall k :: 0 <= k < |d| ==> toFloat(d[k].1).Some?) ==> r.Ok?
  {
    if |xs| == 0 then Ok([])
    else
      match Ladder(xs[..|xs| - 1], d, toFloat)
      case Err(e) => Err(e)
      case Ok(res) =>
        match BucketFrom(xs[|xs| - 1], d, 0, toFloat)
        case Err(e) => Err(e)
        case Ok(None) => Ok(res)
        case Ok(Some(k)) => Ok(res + [k])
  }

  /** `replace(my_list, lookup_dict)`: the categorical branch when the column
      has as many distinct cells as the dictionary has entries, the ladder
      otherwise. */
  function Encoded(xs: seq<Cell>, d: Dict<string>, toFloat: string -> Option<real>): (r: Result<seq<int>>)
    ensures r.Err? ==> r.error == ValueError || r.error == TypeError
    ensures Distinct(xs) == |d| && r.Ok? ==> |r.value| == |xs|
    ensures Distinct(xs) != |d| && r.Ok? ==> |r.value| <= |xs|
  {
    if Distinct(xs) == |d| then CategoricalCodes(xs, d) else Ladder(xs, d, toFloat)
  }

  /** The code of a number under the ladder: the first k < n-1 whose threshold
      is at least x, or the overflow key n-1 when there is none. */
  predicate IsCode(x: real, d: Dict<string>, toFloat: string -> Option<real>, k: int)
  {
    0 <= k < |d| &&
    (k < |d| - 1 ==> toFloat(d[k].1).Some? && x <= toFloat(d[k].1).value) &&
    forall k' :: 0 <= k' < k ==> toFloat(d[k'].1).Some? && toFloat(d[k'].1).value < x
  }

  method Replace(myList: seq<Cell>, lookupDict: Dict<string>, toFloat: string -> Option<real>)
    returns (r: Result<seq<int>>)
    ensures r == Encoded(myList, lookupDict, toFloat)
  {
    if Distinct(myList) == |lookupDict| {
      return CategoricalCodes(myList, lookupDict);
    }
    var n := |lookupDict|;
    var res: seq<int> := [];
    var i := 0;
    while i < |myList|
      invariant 0 <= i <= |myList|
      invariant Ladder(myList[..i], lookupDict, toFloat) == Ok(res)
    {
      assert myList[..i + 1][..i] == myList[..i];
      var x := myList[i];
      var k := 0;
      while k < n
        invariant 0 <= k <= n
        invariant BucketFrom(x, lookupDict, 0, toFloat) == BucketFrom(x, lookupDict, k, toFloat)
      {
        var (key, v) := lookupDict[k];
        if key == n - 1 {
          res := res + [key];
          break;
        }
        var t := toFloat(v);
        if t.None? {
          LadderKeepsError(myList, lookupDict, toFloat, i + 1);
          return Err(ValueError);
        }
        if x.Str? {
          LadderKeepsError(myList, lookupDict, toFloat, i + 1);
          return Err(TypeError);
        }
        if x.x <= t.value {
          res := res + [key];
          break;
        }
        k := k + 1;
      }
      i := i + 1;
    }
    assert myList[..i] == myList;
    return Ok(res);
  }

  // ---------------------------------------------------------------------
  // Properties of `replace`

  /** An exception ends the outer loop: a column whose prefix raises raises
      the same. */
  lemma {:induction false} LadderKeepsError(xs: seq<Cell>, d: Dict<string>, toFloat: string -> Option<real>, n: nat)
    requires n <= |xs| && Ladder(xs[..n], d, toFloat).Err?
    ensures Ladder(xs, d, toFloat) == Ladder(xs[..n], d, toFloat)
    decreases |xs|
  {
    if n < |xs| {
      assert xs[..|xs| - 1][..n] == xs[..n];
      LadderKeepsError(xs[..|xs| - 1], d, toFloat, n);
    } else {
      assert xs[..n] == xs;
    }
  }

  lemma {:induction false} CategoricalCodesLookUp(xs: seq<Cell>, d: Dict<string>)
    requires IsDict(d) && CategoricalCodes(xs, d).Ok?
    ensures var out := CategoricalCodes(xs, d).value;
      forall j :: 0 <= j < |xs| ==> xs[j].Str? && Get(d, out[j]) == Some(xs[j].s)
  {
    if |xs| > 0 {
      var init := xs[..|xs| - 1];
      CategoricalCodesLookUp(init, d);
      var p := IndexOfValue(d, xs[|xs| - 1]).value;
      assert forall j :: 0 <= j < |xs| - 1 ==> xs[j] == init[j];
      assert Get(d, d[p].0) == Some(d[p].1);
    }
  }

  /** The categorical branch is a reverse lookup: it succeeds exactly when
      every cell is one of the dictionary's values, and then keeps the length
      and maps each cell to a key stored with that cell's string. */
  lemma ReplaceCategorical(xs: seq<Cell>, d: Dict<string>, toFloat: string -> Option<real>)
    requires IsDict(d) && Distinct(xs) == |d|
    ensures var r := Encoded(xs, d, toFloat);
      (r.Ok? <==> forall j :: 0 <= j < |xs| ==> exists p :: 0 <= p < |d| && Str(d[p].1) == xs[j]) &&
      (r.Err? ==> r.error == ValueError) &&
      (r.Ok? ==> |r.value| == |xs|) &&
      (r.Ok? ==> forall j :: 0 <= j < |xs| ==> xs[j].Str? && Get(d, r.value[j]) == Some(xs[j].s))
  {
    if CategoricalCodes(xs, d).Ok? {
      CategoricalCodesLookUp(xs, d);
    }
  }

  lemma {:induction false} BucketIsCode(x: real, d: Dict<string>, i: nat, toFloat: string -> Option<real>)
    requires KeysInOrder(d) && i < |d|
    requires forall k :: 0 <= k < |d| - 1 ==> toFloat(d[k].1).Some?
    requires forall k' :: 0 <= k' < i ==> toFloat(d[k'].1).value < x
    ensures var r := BucketFrom(Num(x), d, i, toFloat);
      r.Ok? && r.value.Some? && i <= r.value.value && IsCode(x, d, toFloat, r.value.value)
    decreases |d| - i
  {
    if i < |d| - 1 && toFloat(d[i].1).value < x {
      BucketIsCode(x, d, i + 1, toFloat);
    }
  }

  lemma {:induction false} LadderCodes(xs: seq<Cell>, d: Dict<string>, toFloat: string -> Option<real>)
    requires KeysInOrder(d) && |d| > 0
    requires forall k :: 0 <= k < |d| - 1 ==> toFloat(d[k].1).Some?
    requires forall j :: 0 <= j < |xs| ==> xs[j].Num?
    ensures var r := Ladder(xs, d, toFloat);
      r.Ok? && |r.value| == |xs| && forall j :: 0 <= j < |xs| ==> IsCode(xs[j].x, d, toFloat, r.value[j])
  {
    if |xs| > 0 {
      var init := xs[..|xs| - 1];
      assert forall j :: 0 <= j < |xs| - 1 ==> xs[j] == init[j];
      LadderCodes(init, d, toFloat);
      BucketIsCode(xs[|xs| - 1].x, d, 0, toFloat);
    }
  }

  /** The continuous branch, on a dictionary keyed 0..n-1 whose thresholds
      parse and a column of numbers: one code per cell, each the first
      threshold at least the cell, or the overflow key. */
  lemma ReplaceContinuous(xs: seq<Cell>, d: Dict<string>, toFloat: string -> Option<real>)
    requires Distinct(xs) != |d| && KeysInOrder(d) && |d| > 0
    requires forall k :: 0 <= k < |d| - 1 ==> toFloat(d[k].1).Some?
    requires forall j :: 0 <= j < |xs| ==> xs[j].Num?
    ensures var r := Encoded(xs, d, toFloat);
      r.Ok? && |r.value| == |xs| && forall j :: 0 <= j < |xs| ==> IsCode(xs[j].x, d, toFloat, r.value[j])
  {
    LadderCodes(xs, d, toFloat);
  }

  /** Ladder codes are monotone in the cell, whatever the order of the
      thresholds: the first threshold that admits x also admits anything
      smaller. */
  lemma CodesMonotone(x: real, y: real, d: Dict<string>, toFloat: string -> Option<real>, kx: int, ky: int)
    requires IsCode(x, d, toFloat, kx) && IsCode(y, d, toFloat, ky) && x <= y
    ensures kx <= ky
  {
  }

  lemma ReplaceContinuousMonotone(xs: seq<Cell>, d: Dict<string>, toFloat: string -> Option<real>, i: int, j: int)
    requires Distinct(xs) != |d| && KeysInOrder(d) && |d| > 0
    requires forall k :: 0 <= k < |d| - 1 ==> toFloat(d[k].1).Some?
    requires forall j :: 0 <= j < |xs| ==> xs[j].Num?
    requires 0 <= i < |xs| && 0 <= j < |xs| && xs[i].x <= xs[j].x
    ensures var r := Encoded(xs, d, toFloat);
      r.Ok? && |r.value| == |xs| && r.value[i] <= r.value[j]
  {
    ReplaceContinuous(xs, d, toFloat);
    var out := Encoded(xs, d, toFloat).value;
    CodesMonotone(xs[i].x, xs[j].x, d, toFloat, out[i], out[j]);
  }

  lemma {:induction false} BucketIgnoresOverflow(x: Cell, d: Dict<string>, i: nat, f: string -> Option<real>, g: string -> Option<real>)
    requires KeysInOrder(d)
    requires forall k :: 0 <= k < |d| - 1 ==> f(d[k].1) == g(d[k].1)
    ensures BucketFrom(x, d, i, f) == BucketFrom(x, d, i, g)
    decreases |d| - i
  {
    if i < |d| - 1 {
      BucketIgnoresOverflow(x, d, i + 1, f, g);
    }
  }

  lemma {:induction false} LadderIgnoresOverflow(xs: seq<Cell>, d: Dict<string>, f: string -> Option<real>, g: string -> Option<real>)
    requires KeysInOrder(d)
    requires forall k :: 0 <= k < |d| - 1 ==> f(d[k].1) == g(d[k].1)
    ensures Ladder(xs, d, f) == Ladder(xs, d, g)
  {
    if |xs| > 0 {
      LadderIgnoresOverflow(xs[..|xs| - 1], d, f, g);
      BucketIgnoresOverflow(xs[|xs| - 1], d, 0, f, g);
    }
  }

  /** The overflow entry's string (such as "60+") is never converted: two
      parsers that agree on the real thresholds encode every column alike. */
  lemma OverflowNeverParsed(xs: seq<Cell>, d: Dict<string>, f: string -> Option<real>, g: string -> Option<real>)
    requires KeysInOrder(d)
    requires forall k :: 0 <= k < |d| - 1 ==> f(d[k].1) == g(d[k].1)
    ensures Encoded(xs, d, f) == Encoded(xs, d, g)
  {
    LadderIgnoresOverflow(xs, d, f, g);
  }

  // ---------------------------------------------------------------------
  // make_readable

  /** `make_readable(row, f_dict)`: `f_dict[i][row[i]]` for each column in
      turn; IndexError past the last dictionary, KeyError on a missing code,
      whichever comes first. */
  function Readable(row: seq<int>, fDict: seq<Dict<string>>): (r: Result<seq<string>>)
    ensures r.Ok? <==> |row| <= |fDict| && forall i :: 0 <= i < |row| ==> Get(fDict[i], row[i]).Some?
    ensures r.Ok? ==> |r.value| == |row| && forall i :: 0 <= i < |row| ==> Get(fDict[i], row[i]) == Some(r.value[i])
    ensures r == Err(IndexError) <==>
      |row| > |fDict| && forall i :: 0 <= i < |fDict| ==> Get(fDict[i], row[i]).Some?
    ensures r.Err? ==> r.error in {IndexError, KeyError}
  {
    if |row| == 0 then Ok([])
    else
      var i := |row| - 1;
      var init := row[..i];
      assert forall j :: 0 <= j < i ==> init[j] == row[j];
      match Readable(init, fDict)
      case Err(e) => Err(e)
      case Ok(readable) =>
        if i >= |fDict| then Err(IndexError)
        else
          match Get(fDict[i], row[i])
          case None => Err(KeyError)
          case Some(v) => Ok(readable + [v])
  }

  method MakeReadable(row: seq<int>, fDict: seq<Dict<string>>) returns (r: Result<seq<string>>)
    ensures r == Readable(row, fDict)
  {
    var readable: seq<string> := [];
    var i := 0;
    while i < |row|
      invariant 0 <= i <= |row|
      invariant Readable(row[..i], fDict) == Ok(readable)
    {
      assert row[..i + 1][..i] == row[..i];
      if i >= |fDict| {
        return Err(IndexError);
      }
      var v := Get(fDict[i], row[i]);
      if v.None? {
        return Err(KeyError);
      }
      readable := readable + [v.value];
      i := i + 1;
    }
    assert row[..i] == row;
    return Ok(readable);
  }

  /** Decoding undoes the categorical encoding: when every column was encoded
      by reverse lookup in its own dictionary, decoding the j-th encoded row
      gives back the j-th row's strings. */
  lemma ReadableInvertsCategorical(cols: seq<seq<Cell>>, dicts: seq<Dict<string>>, codes: seq<seq<int>>,
                                   toFloat: string -> Option<real>, row: seq<int>, j: int)
    requires |cols| == |dicts| == |codes| == |row|
    requires forall i :: 0 <= i < |cols| ==> IsDict(dicts[i]) && Distinct(cols[i]) == |dicts[i]|
    requires forall i :: 0 <= i < |cols| ==> Encoded(cols[i], dicts[i], toFloat) == Ok(codes[i])
    requires forall i :: 0 <= i < |cols| ==> 0 <= j < |cols[i]|
    requires forall i :: 0 <= i < |cols| ==> j < |codes[i]| && row[i] == codes[i][j]
    ensures var r := Readable(row, dicts);
      r.Ok? && |r.value| == |cols| && forall i :: 0 <= i < |cols| ==> Str(r.value[i]) == cols[i][j]
  {
    forall i | 0 <= i < |cols|
      ensures 0 <= j < |cols[i]| && cols[i][j].Str? && Get(dicts[i], row[i]) == Some(cols[i][j].s)
    {
      ReplaceCategorical(cols[i], dicts[i], toFloat);
    }
  }

  // ---------------------------------------------------------------------
  // The age dictionary the encoder builds

  const AgeDict: Dict<string> := [(0, "20"), (1, "30"), (2, "40"), (3, "50"), (4, "60"), (5, "60+")]

  /** `float` on the age thresholds; "60+" does not parse. */
  function AgeFloat(s: string): Option<real>
  {
    if s == "20" then Some(20.0)
    else if s == "30" then Some(30.0)
    else if s == "40" then Some(40.0)
    else if s == "50" then Some(50.0)
    else if s == "60" then Some(60.0)
    else None
  }

  /** The ladder on single ages: 25 stops at "30", 61 runs to the overflow
      key, 20 stops at the first threshold. */
  lemma AgeCells()
    ensures BucketFrom(Num(25.0), AgeDict, 0, AgeFloat) == Ok(Some(1))
    ensures BucketFrom(Num(61.0), AgeDict, 0, AgeFloat) == Ok(Some(5))
    ensures BucketFrom(Num(20.0), AgeDict, 0, AgeFloat) == Ok(Some(0))
  {
  }

  /** Ages 25, 61 and 20 fall into the buckets 21-30, 61+ and <=20. */
  lemma AgeBuckets(xs: seq<Cell>)
    requires xs == [Num(25.0), Num(61.0), Num(20.0)]
    ensures Encoded(xs, AgeDict, AgeFloat) == Ok([1, 5, 0])
  {
    assert (set c | c in xs) == {Num(25.0), Num(61.0), Num(20.0)};
    assert Distinct(xs) == 3;
    var p1, p2 := xs[..1], xs[..2];
    assert p1[..0] == [] && p2[..|p2| - 1] == p1 && xs[..|xs| - 1] == p2;
    AgeCells();
    assert p1[0] == Num(25.0) && p2[1] == Num(61.0) && xs[2] == Num(20.0);
    assert Ladder(p1[..0], AgeDict, AgeFloat) == Ok([]);
    assert Ladder(p1, AgeDict, AgeFloat).Ok? && Ladder(p1, AgeDict, AgeFloat).value == [1];
    assert Ladder(p2, AgeDict, AgeFloat).Ok? && Ladder(p2, AgeDict, AgeFloat).value == [1, 5];
    assert Ladder(xs, AgeDict, AgeFloat).Ok? && Ladder(xs, AgeDict, AgeFloat).value == [1, 5, 0];
  }
}
