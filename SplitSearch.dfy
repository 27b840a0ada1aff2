/** `find_best_split` (decision_tree.py): a scan over every available feature
    and every code its catalog entry lists, keeping the first split whose
    weighted impurity is strictly below the best seen so far, from 0.5. */
module SplitSearch {
  import opened Common
  import opened Gini
  import opened Partition

  /** What the tree builder reads from `self`: the feature catalog (one
      dictionary per column, label column last), the continuous column
      numbers, and the minimum subset size worth splitting. */
  datatype Config = Config(featureDictList: seq<Dict<string>>, continuousFeatures: seq<int>, threshold: int)

  /** A split and its weighted impurity; `idx == -1` means "no split". */
  datatype Candidate = Candidate(gini: real, idx: int, val: int)

  const NoSplit := Candidate(0.5, -1, -1)

  /** Feature f may be searched: it has a catalog entry and every row has column f. */
  predicate Searchable(cfg: Config, data: seq<Row>, f: int)
  {
    0 <= f < |cfg.featureDictList| && Indexable(data, f)
  }

  predicate AllSearchable(cfg: Config, data: seq<Row>, fs: seq<int>)
  {
    forall k :: 0 <= k < |fs| ==> Searchable(cfg, data, fs[k])
  }

  /** The codes tried for feature f: every catalog key in dictionary order,
      except that a continuous feature skips its last (overflow) key. */
  function TriedValues(cfg: Config, f: int): (vs: seq<int>)
    requires 0 <= f < |cfg.featureDictList|
    ensures |vs| <= |cfg.featureDictList[f]|
    ensures f !in cfg.continuousFeatures ==> vs == Keys(cfg.featureDictList[f])
    ensures f in cfg.continuousFeatures && |cfg.featureDictList[f]| > 0 ==> |vs| == |cfg.featureDictList[f]| - 1
  {
    var keys := Keys(cfg.featureDictList[f]);
    if f in cfg.continuousFeatures && |keys| > 0 then keys[..|keys| - 1] else keys
  }

  /** Weighted impurity of splitting the subset on feature f at code v. */
  function SplitGini(cfg: Config, data: seq<Row>, labels: seq<int>, f: int, v: int): real
    requires |data| > 0 && |labels| > 0 && Indexable(data, f)
  {
    var s := Split(data, labels, f, v, f in cfg.continuousFeatures);
    CalSplitGini(s.data1, s.labels1, s.data2, s.labels2)
  }

  /** The candidates of feature f, in the order the inner loop meets them. */
  function Candidates(cfg: Config, data: seq<Row>, labels: seq<int>, f: int): (cs: seq<Candidate>)
    requires |data| > 0 && |labels| > 0 && Searchable(cfg, data, f)
    ensures |cs| == |TriedValues(cfg, f)|
    ensures forall j :: 0 <= j < |cs| ==> cs[j].idx == f && cs[j].val == TriedValues(cfg, f)[j]
  {
    var vs := TriedValues(cfg, f);
    seq(|vs|, j requires 0 <= j < |vs| => Candidate(SplitGini(cfg, data, labels, f, vs[j]), f, vs[j]))
  }

  /** One comparison of the scan: a candidate replaces the best only when strictly smaller. */
  function Improve(best: Candidate, c: Candidate): Candidate
  {
    if c.gini < best.gini then c else best
  }

  /** The scan over `cs` from `seed`. */
  function ScanMin(seed: Candidate, cs: seq<Candidate>): Candidate
  {
    if |cs| == 0 then seed else Improve(ScanMin(seed, cs[..|cs| - 1]), cs[|cs| - 1])
  }

  /** The inner loop: per feature, the scan restarts from 0.5 and "no code". */
  function FeatureMin(cfg: Config, data: seq<Row>, labels: seq<int>, f: int): (r: Candidate)
    requires |data| > 0 && |labels| > 0 && Searchable(cfg, data, f)
    ensures r.idx == f && r.gini <= 0.5
    ensures r.gini < 0.5 ==> r.val in TriedValues(cfg, f)
    ensures r.gini == 0.5 ==> r.val == -1
  {
    var cs := Candidates(cfg, data, labels, f);
    ScanMinIsFirstMinimum(Candidate(0.5, f, -1), cs);
    ScanMin(Candidate(0.5, f, -1), cs)
  }

  /** The outer loop: a feature's minimum is adopted when strictly below the best so far. */
  function BestSplit(cfg: Config, data: seq<Row>, labels: seq<int>, fs: seq<int>): (r: Candidate)
    requires |data| > 0 && |labels| > 0 && AllSearchable(cfg, data, fs)
    ensures r.gini <= 0.5
    ensures r.gini == 0.5 ==> r == NoSplit
    ensures r.gini < 0.5 ==> 0 <= r.idx < |cfg.featureDictList|
  {
    if |fs| == 0 then NoSplit
    else
      assert fs[|fs| - 1] == fs[|fs| - 1];
      Improve(BestSplit(cfg, data, labels, fs[..|fs| - 1]), FeatureMin(cfg, data, labels, fs[|fs| - 1]))
  }

  /** Every candidate of every available feature, in scan order. */
  function AllCandidates(cfg: Config, data: seq<Row>, labels: seq<int>, fs: seq<int>): (cs: seq<Candidate>)
    requires |data| > 0 && |labels| > 0 && AllSearchable(cfg, data, fs)
    ensures forall j :: 0 <= j < |cs| ==>
      cs[j].idx in fs && 0 <= cs[j].idx < |cfg.featureDictList| && cs[j].val in TriedValues(cfg, cs[j].idx)
  {
    if |fs| == 0 then []
    else
      var prev := AllCandidates(cfg, data, labels, fs[..|fs| - 1]);
      assert fs[|fs| - 1] == fs[|fs| - 1];
      prev + Candidates(cfg, data, labels, fs[|fs| - 1])
  }

  /** `find_best_split(data_list, label_list, feature_idx_list)`. */
  method FindBestSplit(cfg: Config, data: seq<Row>, labels: seq<int>, featureIdxList: seq<int>)
    returns (bestFeatureIdx: int, bestFeatureVal: int)
    requires |data| > 0 && |labels| > 0 && AllSearchable(cfg, data, featureIdxList)
    ensures var b := BestSplit(cfg, data, labels, featureIdxList);
      bestFeatureIdx == b.idx && bestFeatureVal == b.val
    ensures var cs := AllCandidates(cfg, data, labels, featureIdxList);
      (bestFeatureIdx == -1 <==> forall j :: 0 <= j < |cs| ==> cs[j].gini >= 0.5) &&
      (bestFeatureIdx != -1 ==>
        bestFeatureIdx in featureIdxList && bestFeatureVal in TriedValues(cfg, bestFeatureIdx))
  {
    var bestGini := 0.5;
    bestFeatureIdx := -1;
    bestFeatureVal := -1;
    var i := 0;
    while i < |featureIdxList|
      invariant 0 <= i <= |featureIdxList|
      invariant Candidate(bestGini, bestFeatureIdx, bestFeatureVal) == BestSplit(cfg, data, labels, featureIdxList[..i])
    {
      var featureIdx := featureIdxList[i];
      var minGini, featureVal := ScanFeature(cfg, data, labels, featureIdx);
      assert featureIdxList[..i + 1][..i] == featureIdxList[..i];
      if minGini < bestGini {
        bestGini := minGini;
        bestFeatureIdx := featureIdx;
        bestFeatureVal := featureVal;
      }
      i := i + 1;
    }
    assert featureIdxList[..i] == featureIdxList;
    BestSplitIsFirstMinimum(cfg, data, labels, featureIdxList);
  }

  /** The inner loop of `find_best_split` for one feature. For a continuous
      feature it counts the keys and breaks before the last one. */
  method ScanFeature(cfg: Config, data: seq<Row>, labels: seq<int>, featureIdx: int)
    returns (minGini: real, featureVal: int)
    requires |data| > 0 && |labels| > 0 && Searchable(cfg, data, featureIdx)
    ensures Candidate(minGini, featureIdx, featureVal) == FeatureMin(cfg, data, labels, featureIdx)
  {
    var featureDict := cfg.featureDictList[featureIdx];
    var keys := Keys(featureDict);
    ghost var cands := Candidates(cfg, data, labels, featureIdx);
    minGini := 0.5;
    featureVal := -1;
    var j := 0;
    if featureIdx in cfg.continuousFeatures {
      var dictLen := |featureDict|;
      var cnt := 0;
      while j < |keys|
        invariant 0 <= j <= |keys| && cnt == j && j <= |cands|
        invariant Candidate(minGini, featureIdx, featureVal) == ScanMin(Candidate(0.5, featureIdx, -1), cands[..j])
      {
        var val := keys[j];
        if cnt == dictLen - 1 {
          break;
        }
        cnt := cnt + 1;
        var data1, labels1, data2, labels2 := SplitDataset(data, labels, featureIdx, val, true);
        var gini := CalSplitGini(data1, labels1, data2, labels2);
        assert cands[j] == Candidate(gini, featureIdx, val);
        ScanStep(Candidate(0.5, featureIdx, -1), cands, j);
        if gini < minGini {
          minGini := gini;
          featureVal := val;
        }
        j := j + 1;
      }
    } else {
      while j < |keys|
        invariant 0 <= j <= |keys| && j <= |cands|
        invariant Candidate(minGini, featureIdx, featureVal) == ScanMin(Candidate(0.5, featureIdx, -1), cands[..j])
      {
        var val := keys[j];
        var data1, labels1, data2, labels2 := SplitDataset(data, labels, featureIdx, val, false);
        var gini := CalSplitGini(data1, labels1, data2, labels2);
        assert cands[j] == Candidate(gini, featureIdx, val);
        ScanStep(Candidate(0.5, featureIdx, -1), cands, j);
        if gini < minGini {
          minGini := gini;
          featureVal := val;
        }
        j := j + 1;
      }
    }
    assert j == |cands| && cands[..j] == cands;
  }

  /** r is the first candidate of `cs` of least impurity. */
  predicate IsFirstMinimum(r: Candidate, cs: seq<Candidate>)
  {
    exists k :: 0 <= k < |cs| && cs[k] == r &&
      (forall j :: 0 <= j < |cs| ==> r.gini <= cs[j].gini) &&
      (forall j :: 0 <= j < k ==> r.gini < cs[j].gini)
  }

  /** The scan from `seed` returns the seed when no candidate beats it, and
      otherwise the FIRST candidate of least impurity. */
  lemma {:induction false} ScanMinIsFirstMinimum(seed: Candidate, cs: seq<Candidate>)
    ensures var r := ScanMin(seed, cs);
      r.gini <= seed.gini &&
      ((forall j :: 0 <= j < |cs| ==> seed.gini <= cs[j].gini) ==> r == seed) &&
      ((exists j :: 0 <= j < |cs| && cs[j].gini < seed.gini) ==> IsFirstMinimum(r, cs))
  {
    if |cs| > 0 {
      var n := |cs| - 1;
      var init, c := cs[..n], cs[n];
      assert cs == init + [c];
      ScanMinIsFirstMinimum(seed, init);
      var p := ScanMin(seed, init);
      if exists j :: 0 <= j < n && init[j].gini < seed.gini {
        FirstMinimumExtends(p, init, c);
      } else {
        assert p == seed;
        if c.gini < seed.gini {
          FirstMinimumStarts(seed, init, c);
        } else {
          assert forall j :: 0 <= j < |cs| ==> seed.gini <= cs[j].gini;
        }
      }
    }
  }

  /** A first minimum stays the first minimum, or is displaced by a strictly
      smaller newcomer. */
  lemma FirstMinimumExtends(p: Candidate, init: seq<Candidate>, c: Candidate)
    requires IsFirstMinimum(p, init)
    ensures IsFirstMinimum(Improve(p, c), init + [c])
  {
    var cs := init + [c];
    var k :| 0 <= k < |init| && init[k] == p &&
      (forall j :: 0 <= j < |init| ==> p.gini <= init[j].gini) &&
      (forall j :: 0 <= j < k ==> p.gini < init[j].gini);
    if c.gini < p.gini {
      assert cs[|init|] == c;
    } else {
      assert cs[k] == p;
    }
  }

  /** The first candidate to beat a seed that nothing before it beat is the
      first minimum. */
  lemma FirstMinimumStarts(seed: Candidate, init: seq<Candidate>, c: Candidate)
    requires forall j :: 0 <= j < |init| ==> seed.gini <= init[j].gini
    requires c.gini < seed.gini
    ensures IsFirstMinimum(c, init + [c])
  {
    assert (init + [c])[|init|] == c;
  }

  /** One more candidate extends the scan by one comparison. */
  lemma ScanStep(seed: Candidate, cs: seq<Candidate>, j: nat)
    requires j < |cs|
    ensures ScanMin(seed, cs[..j + 1]) == Improve(ScanMin(seed, cs[..j]), cs[j])
  {
    assert cs[..j + 1][..j] == cs[..j];
  }

  lemma {:induction false} ScanMinConcat(seed: Candidate, a: seq<Candidate>, b: seq<Candidate>)
    ensures ScanMin(seed, a + b) == ScanMin(ScanMin(seed, a), b)
  {
    if |b| == 0 {
      assert a + b == a;
    } else {
      assert (a + b)[..|a + b| - 1] == a + b[..|b| - 1];
      ScanMinConcat(seed, a, b[..|b| - 1]);
    }
  }

  /** Restarting a feature's scan at 0.5 and then comparing its minimum with
      the global best picks what one continued scan would pick, as long as
      the best so far is at most 0.5. */
  lemma {:induction false} RestartedScanIsContinuedScan(best: Candidate, f: int, cs: seq<Candidate>)
    requires best.gini <= 0.5
    ensures Improve(best, ScanMin(Candidate(0.5, f, -1), cs)) == ScanMin(best, cs)
  {
    if |cs| > 0 {
      RestartedScanIsContinuedScan(best, f, cs[..|cs| - 1]);
    }
  }

  /** The nested loops of `find_best_split` compute one flat scan over all candidates. */
  lemma {:induction false} BestSplitIsFlatScan(cfg: Config, data: seq<Row>, labels: seq<int>, fs: seq<int>)
    requires |data| > 0 && |labels| > 0 && AllSearchable(cfg, data, fs)
    ensures BestSplit(cfg, data, labels, fs) == ScanMin(NoSplit, AllCandidates(cfg, data, labels, fs))
    ensures BestSplit(cfg, data, labels, fs).gini <= 0.5
  {
    if |fs| > 0 {
      var init := fs[..|fs| - 1];
      BestSplitIsFlatScan(cfg, data, labels, init);
      var best := BestSplit(cfg, data, labels, init);
      var cs := Candidates(cfg, data, labels, fs[|fs| - 1]);
      RestartedScanIsContinuedScan(best, fs[|fs| - 1], cs);
      ScanMinConcat(NoSplit, AllCandidates(cfg, data, labels, init), cs);
      ScanMinIsFirstMinimum(NoSplit, AllCandidates(cfg, data, labels, fs));
    }
  }

  /** What `find_best_split` returns: (-1, -1) when no candidate's impurity is
      strictly below 0.5; otherwise the first candidate, in scan order, of
      least impurity, whose feature is available and whose code is one the
      catalog lists for it. */
  lemma BestSplitIsFirstMinimum(cfg: Config, data: seq<Row>, labels: seq<int>, fs: seq<int>)
    requires |data| > 0 && |labels| > 0 && AllSearchable(cfg, data, fs)
    ensures var r, cs := BestSplit(cfg, data, labels, fs), AllCandidates(cfg, data, labels, fs);
      ((forall j :: 0 <= j < |cs| ==> cs[j].gini >= 0.5) ==> r == NoSplit) &&
      ((exists j :: 0 <= j < |cs| && cs[j].gini < 0.5) ==>
        r.gini < 0.5 && r.idx in fs && r.val in TriedValues(cfg, r.idx) && IsFirstMinimum(r, cs))
  {
    var r, cs := BestSplit(cfg, data, labels, fs), AllCandidates(cfg, data, labels, fs);
    BestSplitIsFlatScan(cfg, data, labels, fs);
    ScanMinIsFirstMinimum(NoSplit, cs);
    if exists j :: 0 <= j < |cs| && cs[j].gini < 0.5 {
      var j :| 0 <= j < |cs| && cs[j].gini < 0.5;
      assert IsFirstMinimum(r, cs);
      var k :| 0 <= k < |cs| && cs[k] == r && forall i :: 0 <= i < |cs| ==> r.gini <= cs[i].gini;
      assert r.gini <= cs[j].gini;
      assert cs[k].idx in fs && cs[k].val in TriedValues(cfg, cs[k].idx);
    }
  }

  /** A continuous feature never splits at its last (overflow) key. */
  lemma OverflowKeyNeverTried(cfg: Config, f: int)
    requires 0 <= f < |cfg.featureDictList| && IsDict(cfg.featureDictList[f])
    requires f in cfg.continuousFeatures && |cfg.featureDictList[f]| > 0
    ensures var d := cfg.featureDictList[f];
      d[|d| - 1].0 !in TriedValues(cfg, f)
  {
    var d := cfg.featureDictList[f];
    var keys := Keys(d);
    forall j | 0 <= j < |keys| - 1 ensures keys[j] != d[|d| - 1].0 {
      assert keys[j] == d[j].0;
    }
  }
}
