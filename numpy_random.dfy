/** The numpy and pylab random draws the engine calls, as nondeterministic
    choices: each result is constrained only by which outcomes the draw can
    produce, never by how likely they are. The argument checks that make numpy
    raise are those of its legacy `RandomState` generator. */
module NumpyRandom {
  import opened Results
  import opened Sums

  /** The argument checks of `np.random.multinomial(n, pvals)`: every
      probability lies in [0, 1] and all but the last sum to at most 1 (numpy
      adds a 1e-12 tolerance, which exact reals do not need). */
  predicate PvalsOk(p: seq<real>) {
    && (forall i | 0 <= i < |p| :: 0.0 <= p[i] <= 1.0)
    && (p != [] ==> Sum(p[..|p| - 1]) <= 1.0)
  }

  /** Position i can be the hit of a one-trial draw: numpy walks the
      positions before the last with their own probabilities and gives the
      last position whatever probability is left over, ignoring its entry. */
  predicate CanHit(p: seq<real>, i: int) {
    0 <= i < |p| && if i < |p| - 1 then p[i] > 0.0 else Sum(p[..i]) < 1.0
  }

  /** A valid, non-empty probability vector always has a possible hit. */
  lemma HitExists(p: seq<real>)
    requires PvalsOk(p) && p != []
    ensures exists i :: CanHit(p, i)
  {
    var d := |p| - 1;
    if Sum(p[..d]) < 1.0 {
      assert CanHit(p, d);
    } else {
      NonZeroSumHasNonZero(p[..d]);
      var i :| 0 <= i < d && p[..d][i] != 0.0;
      assert CanHit(p, i);
    }
  }

  /** On a valid vector that sums to 1 the possible hits are exactly the
      positions of positive probability, the last one included. */
  lemma NormalizedHits(p: seq<real>)
    requires PvalsOk(p) && Sum(p) == 1.0
    ensures forall i | 0 <= i < |p| :: CanHit(p, i) <==> p[i] > 0.0
  {
    SumSplitLast(p);
  }

  /** On an all-zero vector numpy gives the whole probability to the last
      position, so that position is the only possible hit. */
  lemma ZeroVectorHitsLast(p: seq<real>)
    requires p != [] && forall i | 0 <= i < |p| :: p[i] == 0.0
    ensures PvalsOk(p)
    ensures forall i :: CanHit(p, i) <==> i == |p| - 1
  {
    SumOfZeros(p[..|p| - 1]);
  }

  /** `np.where(np.random.multinomial(1, p, size = 1)[0])[0][0]`: the position
      of the single trial's hit. numpy rejects a bad vector with ValueError;
      an empty vector yields an empty outcome, whose `[0]` raises IndexError. */
  method OneTrialHit(p: seq<real>) returns (r: Result<nat>)
    ensures r.Err? <==> p == [] || !PvalsOk(p)
    ensures r.Err? ==> r.error == (if PvalsOk(p) then IndexError else ValueError)
    ensures r.Ok? ==> CanHit(p, r.value)
  {
    if !PvalsOk(p) {
      return Err(ValueError);
    }
    if p == [] {
      return Err(IndexError);
    }
    HitExists(p);
    var i :| 0 <= i < |p| && CanHit(p, i);
    return Ok(i);
  }

  /** `np.random.choice(xs)`: some element; ValueError on an empty input. */
  method Choice<T>(xs: seq<T>) returns (r: Result<T>)
    ensures r.Err? <==> xs == []
    ensures r.Err? ==> r.error == ValueError
    ensures r.Ok? ==> r.value in xs
  {
    if xs == [] {
      return Err(ValueError);
    }
    var i :| 0 <= i < |xs|;
    return Ok(xs[i]);
  }

  /** One Bernoulli trial with success probability p, a number in [0, 1],
      can end in s. */
  predicate BernoulliOutcome(p: real, s: int) {
    0.0 <= p <= 1.0 && ((s == 0 && p < 1.0) || (s == 1 && p > 0.0))
  }

  /** `np.random.binomial(1, p)`: 1 only if p > 0, 0 only if p < 1;
      ValueError when p lies outside [0, 1]. */
  method Bernoulli(p: real) returns (r: Result<int>)
    ensures r.Err? <==> p < 0.0 || p > 1.0
    ensures r.Err? ==> r.error == ValueError
    ensures r.Ok? ==> BernoulliOutcome(p, r.value)
  {
    if p < 0.0 || p > 1.0 {
      return Err(ValueError);
    }
    assert BernoulliOutcome(p, if p < 1.0 then 0 else 1);
    var s :| BernoulliOutcome(p, s);
    return Ok(s);
  }

  /** `pl.randint(2)`: 0 or 1. */
  method RandInt2() returns (s: int)
    ensures s == 0 || s == 1
  {
    s :| s == 0 || s == 1;
  }

  /** `pl.normal(mean, std)`: any real; exactly the mean when std is 0;
      ValueError for a negative std. */
  method Normal(mean: real, std: real) returns (r: Result<real>)
    ensures r.Err? <==> std < 0.0
    ensures r.Err? ==> r.error == ValueError
    ensures r.Ok? && std == 0.0 ==> r.value == mean
  {
    if std < 0.0 {
      return Err(ValueError);
    }
    if std == 0.0 {
      return Ok(mean);
    }
    var x: real :| x < mean || x >= mean;
    return Ok(x);
  }
}
