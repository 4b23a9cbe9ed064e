/** The distribution normaliser and the categorical samplers: `norm_dic`,
    `sample_single` (dict and array branches) and `sample_bracket`. */
module Sampling {
  import opened Results
  import opened Sums
  import opened Dicts
  import opened NumpyRandom

  /** `norm_dic`: a zero total returns the input itself; otherwise every
      weight is divided by the total, in the same key order. */
  method NormDic<K(==)>(d: Dict<K, real>) returns (r: Dict<K, real>)
    requires d.Valid()
    ensures r.Valid()
    ensures Total(d) == 0.0 ==> r == d
    ensures Total(d) != 0.0 ==> r.keys == d.keys
    ensures Total(d) != 0.0 ==> forall k | k in d.vals :: k in r.vals && r.vals[k] == d.vals[k] / Total(d)
    ensures Total(d) != 0.0 ==> Total(r) == 1.0
  {
    var total := Total(d);
    if total == 0.0 {
      return d;
    }
    r := Empty();
    for i := 0 to |d.keys|
      invariant r.Valid() && r.keys == d.keys[..i]
      invariant forall k | k in r.vals :: k in d.vals && r.vals[k] == d.vals[k] / total
    {
      var k := d.keys[i];
      assert k !in d.keys[..i];
      assert d.keys[..i + 1] == d.keys[..i] + [k];
      r := r.Put(k, d.vals[k] / total);
    }
    assert r.keys == d.keys;
    ScaledTotal(d, r, total);
  }

  /** A dict whose every weight is divided by t has its total divided by t. */
  lemma ScaledTotal<K>(d: Dict<K, real>, r: Dict<K, real>, t: real)
    requires d.Valid() && r.Valid() && r.keys == d.keys && t != 0.0
    requires forall k | k in d.vals :: r.vals[k] == d.vals[k] / t
    ensures Total(r) == Total(d) / t
    ensures Total(d) == t ==> Total(r) == 1.0
  {
    assert Values(r) == Scale(Values(d), t);
    SumScale(Values(d), t);
    assert t / t == 1.0;
  }

  /** Every weight has the sign of the total (so divided by it, none is
      negative); a zero total requires every weight to be zero. */
  predicate SignedLike(w: seq<real>, t: real) {
    forall i | 0 <= i < |w| :: if t == 0.0 then w[i] == 0.0 else w[i] / t >= 0.0
  }

  /** For a vector summing to 0 or 1, numpy's checks hold exactly when no
      entry is negative. */
  lemma PvalsOkIffNonNegative(p: seq<real>)
    requires Sum(p) == 0.0 || Sum(p) == 1.0
    ensures PvalsOk(p) <==> NonNegative(p)
  {
    if NonNegative(p) {
      if p != [] {
        NonNegativeBounded(p, |p| - 1);
      }
    }
  }

  /** The values of a dict read in sorted-key order, as `sample_single` and
      `sample_bracket` feed them to the draw. */
  function SortedValues(d: Dict<int, real>): (r: seq<real>)
    requires d.Valid()
    ensures |r| == |d.keys|
  {
    SumProjectSorted(d.keys, d.vals);
    Project(SortedKeys(d.keys), d.vals)
  }

  /** The sorted values contain the same numbers as the dict. */
  lemma SortedValuesMembers(d: Dict<int, real>)
    requires d.Valid()
    ensures Sum(SortedValues(d)) == Total(d)
    ensures forall j | 0 <= j < |d.keys| :: SortedKeys(d.keys)[j] in d.vals
    ensures forall j | 0 <= j < |d.keys| :: SortedValues(d)[j] == d.vals[SortedKeys(d.keys)[j]]
    ensures forall k | k in d.vals :: exists j :: 0 <= j < |d.keys| && SortedKeys(d.keys)[j] == k
  {
    SumProjectSorted(d.keys, d.vals);
    var sk := SortedKeys(d.keys);
    forall k | k in d.vals ensures exists j :: 0 <= j < |d.keys| && sk[j] == k {
      assert k in multiset(d.keys);
      assert k in multiset(sk);
      var j :| 0 <= j < |sk| && sk[j] == k;
    }
  }

  /** No sorted value is negative exactly when no weight of the dict is. */
  lemma SortedValuesNonNegative(d: Dict<int, real>)
    requires d.Valid()
    ensures NonNegative(SortedValues(d)) <==> forall k | k in d.vals :: d.vals[k] >= 0.0
  {
    SortedValuesMembers(d);
    var sk := SortedKeys(d.keys);
    if NonNegative(SortedValues(d)) {
      forall k | k in d.vals ensures d.vals[k] >= 0.0 {
        var j :| 0 <= j < |d.keys| && sk[j] == k;
      }
    }
  }

  /** SignedLike on the dict's values, stated per key. */
  lemma SignedLikeByKey(d: Dict<int, real>, t: real)
    requires d.Valid()
    ensures SignedLike(Values(d), t) <==>
      forall k | k in d.vals :: if t == 0.0 then d.vals[k] == 0.0 else d.vals[k] / t >= 0.0
  {
    var w := Values(d);
    if forall k | k in d.vals :: if t == 0.0 then d.vals[k] == 0.0 else d.vals[k] / t >= 0.0 {
      forall i | 0 <= i < |w| ensures if t == 0.0 then w[i] == 0.0 else w[i] / t >= 0.0 {
        assert d.keys[i] in d.vals;
      }
    }
    if SignedLike(w, t) {
      forall k | k in d.vals ensures if t == 0.0 then d.vals[k] == 0.0 else d.vals[k] / t >= 0.0 {
        var i :| 0 <= i < |d.keys| && d.keys[i] == k;
        assert w[i] == d.vals[k];
      }
    }
  }

  /** The draw over the sorted, normalised values passes numpy's checks
      exactly when every weight has the sign of the total. */
  lemma NormalizedDrawable(d: Dict<int, real>, nd: Dict<int, real>)
    requires d.Valid() && nd.Valid()
    requires Total(d) == 0.0 ==> nd == d
    requires Total(d) != 0.0 ==> nd.vals.Keys == d.vals.Keys && Total(nd) == 1.0
    requires Total(d) != 0.0 ==> forall k | k in d.vals :: nd.vals[k] == d.vals[k] / Total(d)
    ensures Sum(SortedValues(nd)) == 0.0 || Sum(SortedValues(nd)) == 1.0
    ensures PvalsOk(SortedValues(nd)) <==> SignedLike(Values(d), Total(d))
  {
    var t := Total(d);
    SortedValuesMembers(nd);
    PvalsOkIffNonNegative(SortedValues(nd));
    SortedValuesNonNegative(nd);
    SignedLikeByKey(d, t);
    if t == 0.0 && NonNegative(SortedValues(nd)) {
      SortedValuesNonNegative(d);
      NonNegativeZeroSum(SortedValues(d));
      SortedValuesMembers(d);
      var sk := SortedKeys(d.keys);
      forall k | k in d.vals ensures d.vals[k] == 0.0 {
        var j :| 0 <= j < |d.keys| && sk[j] == k;
      }
    }
  }

  /** `sample_single` on a dict: normalise, sort the keys, draw one trial over
      the values in that order and return the key at the hit. */
  method SampleSingleDict(d: Dict<int, real>) returns (r: Result<int>)
    requires d.Valid()
    ensures r.Err? <==> d.keys == [] || !SignedLike(Values(d), Total(d))
    ensures r.Err? ==> r.error == (if d.keys == [] then IndexError else ValueError)
    ensures r.Ok? ==> r.value in d.vals
    ensures r.Ok? && Total(d) != 0.0 ==> d.vals[r.value] / Total(d) > 0.0
    ensures r.Ok? && Total(d) == 0.0 ==> forall k | k in d.vals :: k <= r.value
  {
    var nd := NormDic(d);
    var sk := SortedKeys(nd.keys);
    var pv := Project(sk, nd.vals);
    assert pv == SortedValues(nd);
    NormalizedDrawable(d, nd);
    SortedValuesMembers(nd);
    var hit := OneTrialHit(pv);
    if hit.Err? {
      return Err(hit.error);
    }
    var j := hit.value;
    r := Ok(sk[j]);
    if Total(d) != 0.0 {
      NormalizedHits(pv);
    } else {
      ZeroSortedHitsLargest(d, j);
    }
  }

  /** An all-zero vector numpy accepts can only hit its last position. */
  lemma ZeroHitIsLast(p: seq<real>, j: int)
    requires PvalsOk(p) && Sum(p) == 0.0 && CanHit(p, j)
    ensures j == |p| - 1
  {
    assert NonNegative(p);
    NonNegativeZeroSum(p);
  }

  /** With a zero total that numpy accepts (all weights zero), the only
      possible hit is the last sorted key, the largest one. */
  lemma ZeroSortedHitsLargest(d: Dict<int, real>, j: int)
    requires d.Valid() && Total(d) == 0.0
    requires PvalsOk(SortedValues(d)) && CanHit(SortedValues(d), j)
    ensures forall k | k in d.vals :: k <= SortedKeys(d.keys)[j]
  {
    var sk := SortedKeys(d.keys);
    SortedValuesMembers(d);
    ZeroHitIsLast(SortedValues(d), j);
    forall k | k in d.vals ensures k <= sk[j] {
      var i :| 0 <= i < |d.keys| && sk[i] == k;
    }
  }

  /** `distr / np.sum(distr)` on a numpy array. */
  function Normalize(p: seq<real>): seq<real>
    requires Sum(p) != 0.0
  {
    Scale(p, Sum(p))
  }

  /** `sample_single` on an array: divide by the sum and draw one trial; the
      hit position is the result. A zero sum makes NaN or infinite entries,
      which numpy rejects, unless the array is empty. */
  method SampleSingleArray(p: seq<real>) returns (r: Result<nat>)
    ensures r.Err? <==> Sum(p) == 0.0 || !SignedLike(p, Sum(p))
    ensures r.Err? ==> r.error == (if p == [] then IndexError else ValueError)
    ensures r.Ok? ==> r.value < |p| && p[r.value] / Sum(p) > 0.0
  {
    var total := Sum(p);
    if total == 0.0 {
      return Err(if p == [] then IndexError else ValueError);
    }
    var q := Normalize(p);
    SumScale(p, total);
    PvalsOkIffNonNegative(q);
    assert NonNegative(q) <==> SignedLike(p, total) by {
      assert forall i | 0 <= i < |p| :: q[i] == p[i] / total;
    }
    var hit := OneTrialHit(q);
    if hit.Err? {
      return Err(hit.error);
    }
    NormalizedHits(q);
    return Ok(hit.value);
  }

  /** `sample_bracket`: the draw of `sample_single` without normalising, and
      the position in sorted-key order is returned, not the key. The
      `brackets` argument is not used. */
  method SampleBracket(distr: Dict<int, real>, brackets: Dict<int, seq<int>>) returns (r: Result<nat>)
    requires distr.Valid()
    ensures r.Err? <==> distr.keys == [] || !PvalsOk(SortedValues(distr))
    ensures r.Ok? ==> r.value < |distr.keys| && CanHit(SortedValues(distr), r.value)
  {
    var sk := SortedKeys(distr.keys);
    var pv := Project(sk, distr.vals);
    var hit := OneTrialHit(pv);
    if hit.Err? {
      return Err(hit.error);
    }
    return Ok(hit.value);
  }

  /** For a bracket distribution given as shares that sum to 1, the drawn
      position is that of a bracket with a positive share, and every
      position of a positive share can be drawn. */
  lemma {:induction false} NormalizedBracketDraw(distr: Dict<int, real>)
    requires distr.Valid() && NonNegative(Values(distr)) && Total(distr) == 1.0
    ensures distr.keys != [] && PvalsOk(SortedValues(distr))
    ensures forall j | 0 <= j < |distr.keys| ::
      CanHit(SortedValues(distr), j) <==> distr.vals[SortedKeys(distr.keys)[j]] > 0.0
  {
    SortedValuesMembers(distr);
    var pv := SortedValues(distr);
    SortedValuesNonNegative(distr);
    forall k | k in distr.vals ensures distr.vals[k] >= 0.0 {
      var i :| 0 <= i < |distr.keys| && distr.keys[i] == k;
      assert Values(distr)[i] == distr.vals[k];
    }
    PvalsOkIffNonNegative(pv);
    NormalizedHits(pv);
  }
}
