/** The age-sex generator: a bracket, an age in it and a sex drawn from the
    bracket's male fraction; on any failure, a uniform sex and a normal age
    clamped to [min_age, max_age]. */
module AgeSex {
  import opened Results
  import opened Dicts
  import opened NumpyRandom
  import opened Sampling

  /** `pl.median([a, b, c])`: the middle one of three numbers. */
  function Median3(a: real, b: real, c: real): (r: real)
    ensures r == a || r == b || r == c
    ensures (if a <= r then 1 else 0) + (if b <= r then 1 else 0) + (if c <= r then 1 else 0) >= 2
    ensures (if a >= r then 1 else 0) + (if b >= r then 1 else 0) + (if c >= r then 1 else 0) >= 2
  {
    if a <= b then
      if b <= c then b else if a <= c then c else a
    else
      if a <= c then a else if b <= c then c else b
  }

  /** The median of (lo, x, hi) with lo <= hi clamps x into [lo, hi]. */
  lemma MedianClamps(lo: real, x: real, hi: real)
    requires lo <= hi
    ensures Median3(lo, x, hi) == if x < lo then lo else if x > hi then hi else x
  {
  }

  /** The result: an integer age from the primary path, or the clamped
      normal age (a float in the source) from the fallback. */
  datatype AgeSex = Primary(age: int, sex: int) | Fallback(clampedAge: real, sex: int)

  /** The primary draw: bracket position b can come out of `sample_bracket`,
      the age lies in bracket b and the sex is a possible outcome of the
      Bernoulli trial on bracket b's male fraction. */
  ghost predicate PrimaryDraw(gf: map<string, map<int, real>>, distr: Dict<int, real>, ab: Dict<int, seq<int>>, age: int, sex: int)
    requires distr.Valid()
  {
    exists b :: 0 <= b < |distr.keys| && CanHit(SortedValues(distr), b) &&
      b in ab.vals && age in ab.vals[b] &&
      "male" in gf && b in gf["male"] && BernoulliOutcome(gf["male"][b], sex)
  }

  /** A male fraction of 2 makes `np.random.binomial` raise, so it allows
      no primary draw. */
  lemma FractionAboveOneGivesNoDraw(age: int, sex: int)
    ensures !PrimaryDraw(map["male" := map[0 := 2.0]], Dict([0], map[0 := 1.0]), Dict([0], map[0 := [5]]), age, sex)
  {
  }

  /** The primary path cannot fail: a bracket can be drawn, and every
      bracket that can be drawn has ages and a male fraction in [0, 1]. */
  predicate PrimaryReady(gf: map<string, map<int, real>>, distr: Dict<int, real>, ab: Dict<int, seq<int>>)
    requires distr.Valid()
  {
    && distr.keys != []
    && PvalsOk(SortedValues(distr))
    && "male" in gf
    && forall b | 0 <= b < |distr.keys| && CanHit(SortedValues(distr), b) ::
         b in ab.vals && ab.vals[b] != [] && b in gf["male"] && 0.0 <= gf["male"][b] <= 1.0
  }

  /** The primary path fails whatever is drawn. */
  predicate PrimaryBlocked(gf: map<string, map<int, real>>, distr: Dict<int, real>)
    requires distr.Valid()
  {
    distr.keys == [] || !PvalsOk(SortedValues(distr)) || "male" !in gf
  }

  /** The `try` block of `get_age_sex`: `sample_bracket`, a uniform age in
      `age_brackets[b]` (KeyError, or ValueError when empty), and
      `np.random.binomial(1, gender_fraction_by_age['male'][b])`. */
  method PrimaryAgeSex(gf: map<string, map<int, real>>, distr: Dict<int, real>, ab: Dict<int, seq<int>>)
    returns (r: Result<(int, int)>)
    requires distr.Valid()
    ensures PrimaryReady(gf, distr, ab) ==> r.Ok?
    ensures PrimaryBlocked(gf, distr) ==> r.Err?
    ensures r.Ok? ==> PrimaryDraw(gf, distr, ab, r.value.0, r.value.1)
  {
    var b := SampleBracket(distr, ab);
    if b.Err? {
      return Err(b.error);
    }
    if b.value !in ab.vals {
      return Err(KeyError);
    }
    var age := Choice(ab.vals[b.value]);
    if age.Err? {
      return Err(age.error);
    }
    if "male" !in gf || b.value !in gf["male"] {
      return Err(KeyError);
    }
    var sex := Bernoulli(gf["male"][b.value]);
    if sex.Err? {
      return Err(sex.error);
    }
    return Ok((age.value, sex.value));
  }

  /** `get_age_sex`: the primary draw; if it raises anything, the bare
      `except` gives a sex from `pl.randint(2)` and the median of min_age, a
      normal draw and max_age. Only the normal draw itself can still raise,
      for a negative standard deviation. */
  method GetAgeSex(gf: map<string, map<int, real>>, distr: Dict<int, real>, ab: Dict<int, seq<int>>,
                   minAge: real, maxAge: real, ageMean: real, ageStd: real) returns (r: Result<AgeSex>)
    requires distr.Valid()
    ensures r.Err? ==> ageStd < 0.0 && r.error == ValueError
    ensures ageStd >= 0.0 ==> r.Ok?
    ensures PrimaryReady(gf, distr, ab) ==> r.Ok? && r.value.Primary?
    ensures PrimaryBlocked(gf, distr) && r.Ok? ==> r.value.Fallback?
    ensures r.Ok? && r.value.Primary? ==> PrimaryDraw(gf, distr, ab, r.value.age, r.value.sex)
    ensures r.Ok? ==> r.value.sex == 0 || r.value.sex == 1
    ensures r.Ok? && r.value.Fallback? && minAge <= maxAge ==> minAge <= r.value.clampedAge <= maxAge
    ensures r.Ok? && r.value.Fallback? && ageStd == 0.0 ==> r.value.clampedAge == Median3(minAge, ageMean, maxAge)
  {
    var primary := PrimaryAgeSex(gf, distr, ab);
    if primary.Ok? {
      ghost var b :| 0 <= b < |distr.keys| && CanHit(SortedValues(distr), b) &&
        b in ab.vals && primary.value.0 in ab.vals[b] &&
        "male" in gf && b in gf["male"] && BernoulliOutcome(gf["male"][b], primary.value.1);
      return Ok(Primary(primary.value.0, primary.value.1));
    }
    var sex := RandInt2();
    var x := Normal(ageMean, ageStd);
    if x.Err? {
      return Err(ValueError);
    }
    var age := Median3(minAge, x.value, maxAge);
    if minAge <= maxAge {
      MedianClamps(minAge, x.value, maxAge);
    }
    return Ok(Fallback(age, sex));
  }
}
