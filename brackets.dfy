/** Age brackets: building them from (min, max) rows, inverting them into an
    age-to-bracket table, expanding per-bracket mortality rates to per-age
    rates, and the per-age lookup. */
module Brackets {
  import opened Results
  import opened Dicts

  /** `np.arange(lo, hi)` on integers: lo, lo + 1, ..., hi - 1, empty when hi <= lo. */
  function Range(lo: int, hi: int): (r: seq<int>)
    ensures |r| == if lo < hi then hi - lo else 0
    decreases hi - lo
  {
    if hi <= lo then [] else Range(lo, hi - 1) + [hi - 1]
  }

  predicate StrictlyAscending(s: seq<int>) {
    forall i, j | 0 <= i < j < |s| :: s[i] < s[j]
  }

  /** Position k of a range holds lo + k. */
  lemma {:induction false} RangeAt(lo: int, hi: int, k: int)
    requires 0 <= k < hi - lo
    ensures Range(lo, hi)[k] == lo + k
    decreases hi - lo
  {
    if k < hi - lo - 1 {
      RangeAt(lo, hi - 1, k);
    }
  }

  /** A range holds exactly the integers in [lo, hi), each once, ascending. */
  lemma RangeMember(lo: int, hi: int, a: int)
    ensures a in Range(lo, hi) <==> lo <= a < hi
    ensures StrictlyAscending(Range(lo, hi))
  {
    var r := Range(lo, hi);
    forall k | 0 <= k < |r| ensures r[k] == lo + k {
      RangeAt(lo, hi, k);
    }
    if lo <= a < hi {
      assert r[a - lo] == a;
    }
  }

  /** The bracket dict built from rows of (age_min, age_max): key i holds the
      inclusive range of row i, keys in row order. */
  function BracketTable(rows: seq<(int, int)>): (r: Dict<int, seq<int>>)
    ensures r.Valid()
    decreases |rows|
  {
    if rows == [] then Empty()
    else
      var n := |rows| - 1;
      BracketTable(rows[..n]).Put(n, Range(rows[n].0, rows[n].1 + 1))
  }

  /** The bracket keys are 0 .. n-1, in order. */
  lemma {:induction false} BracketTableKeys(rows: seq<(int, int)>)
    ensures BracketTable(rows).keys == Range(0, |rows|)
    decreases |rows|
  {
    if rows != [] {
      var n := |rows| - 1;
      BracketTableKeys(rows[..n]);
      RangeMember(0, n, n);
    }
  }

  /** Bracket i is the inclusive range of row i. */
  lemma {:induction false} BracketTableAt(rows: seq<(int, int)>, i: int)
    requires 0 <= i < |rows|
    ensures i in BracketTable(rows).vals && BracketTable(rows).vals[i] == Range(rows[i].0, rows[i].1 + 1)
    decreases |rows|
  {
    var n := |rows| - 1;
    var prev := BracketTable(rows[..n]);
    var v := Range(rows[n].0, rows[n].1 + 1);
    assert BracketTable(rows) == prev.Put(n, v);
    assert prev.Put(n, v).vals == prev.vals[n := v];
    if i < n {
      BracketTableAt(rows[..n], i);
      assert rows[..n][i] == rows[i];
      assert prev.vals[i] == Range(rows[i].0, rows[i].1 + 1);
      assert prev.vals[n := v][i] == prev.vals[i];
    } else {
      assert prev.vals[n := v][i] == v;
    }
  }

  /** The loop of `get_age_brackets_from_df` over rows already read from the
      file: bracket i is the ascending inclusive range row[i].0 .. row[i].1. */
  method AgeBracketsFromRows(rows: seq<(int, int)>) returns (r: Dict<int, seq<int>>)
    ensures r.Valid() && r.keys == Range(0, |rows|)
    ensures forall i | 0 <= i < |rows| :: i in r.vals && StrictlyAscending(r.vals[i])
    ensures forall i, a | 0 <= i < |rows| :: a in r.vals[i] <==> rows[i].0 <= a <= rows[i].1
    ensures r == BracketTable(rows)
  {
    r := Empty();
    for index := 0 to |rows|
      invariant r == BracketTable(rows[..index])
    {
      var (ageMin, ageMax) := rows[index];
      assert rows[..index + 1][..index] == rows[..index];
      r := r.Put(index, Range(ageMin, ageMax + 1));
    }
    assert rows[..|rows|] == rows;
    BracketTableKeys(rows);
    forall i | 0 <= i < |rows| ensures i in r.vals && StrictlyAscending(r.vals[i]) {
      BracketTableAt(rows, i);
      RangeMember(rows[i].0, rows[i].1 + 1, 0);
    }
    forall i, a | 0 <= i < |rows| ensures a in r.vals[i] <==> rows[i].0 <= a <= rows[i].1 {
      BracketTableAt(rows, i);
      RangeMember(rows[i].0, rows[i].1 + 1, a);
    }
  }

  /** `for a in ages: d[a] = v` */
  function FillAges<V>(d: Dict<int, V>, ages: seq<int>, v: V): (r: Dict<int, V>)
    requires d.Valid()
    ensures r.Valid()
    decreases |ages|
  {
    if ages == [] then d else FillAges(d, ages[..|ages| - 1], v).Put(ages[|ages| - 1], v)
  }

  /** The inner loop of the bracket expansions: each age in turn gets v. */
  method FillLoop<V>(d: Dict<int, V>, ages: seq<int>, v: V) returns (r: Dict<int, V>)
    requires d.Valid()
    ensures r == FillAges(d, ages, v)
  {
    r := d;
    for j := 0 to |ages|
      invariant r == FillAges(d, ages[..j], v)
    {
      assert ages[..j + 1][..j] == ages[..j];
      r := r.Put(ages[j], v);
    }
    assert ages[..|ages|] == ages;
  }

  /** After the fill, a is a key iff it was one or is among the ages, and it
      holds v iff it is among the ages. */
  lemma {:induction false} FillAgesAt<V>(d: Dict<int, V>, ages: seq<int>, v: V, a: int)
    requires d.Valid()
    ensures a in FillAges(d, ages, v).vals <==> a in d.vals || a in ages
    ensures a in FillAges(d, ages, v).vals ==>
      FillAges(d, ages, v).vals[a] == if a in ages then v else d.vals[a]
    decreases |ages|
  {
    if ages != [] {
      var prefix := ages[..|ages| - 1];
      assert a in ages <==> a in prefix || a == ages[|ages| - 1];
      FillAgesAt(d, prefix, v, a);
    }
  }

  /** Bracket ks[i] is the last bracket in ks whose ages contain a. */
  predicate LastHolder(ks: seq<int>, brackets: map<int, seq<int>>, a: int, i: int)
    requires forall i | 0 <= i < |ks| :: ks[i] in brackets
  {
    0 <= i < |ks| && a in brackets[ks[i]] && forall j | i < j < |ks| :: a !in brackets[ks[j]]
  }

  /** `for b in ks: for a in brackets[b]: out[a] = labels[b]` */
  function Expand<V>(ks: seq<int>, brackets: map<int, seq<int>>, labels: map<int, V>): (r: Dict<int, V>)
    requires forall i | 0 <= i < |ks| :: ks[i] in brackets && ks[i] in labels
    ensures r.Valid()
    decreases |ks|
  {
    if ks == [] then Empty()
    else
      var n := |ks| - 1;
      FillAges(Expand(ks[..n], brackets, labels), brackets[ks[n]], labels[ks[n]])
  }

  /** Expanding one more bracket is one more fill. */
  lemma ExpandStep<V>(ks: seq<int>, brackets: map<int, seq<int>>, labels: map<int, V>, i: int)
    requires 0 <= i < |ks|
    requires forall p | 0 <= p <= i :: ks[p] in brackets && ks[p] in labels
    ensures Expand(ks[..i + 1], brackets, labels) == FillAges(Expand(ks[..i], brackets, labels), brackets[ks[i]], labels[ks[i]])
  {
    assert ks[..i + 1][..i] == ks[..i];
  }

  /** The expanded table's keys are exactly the ages of the visited brackets. */
  lemma {:induction false} ExpandDomain<V>(ks: seq<int>, brackets: map<int, seq<int>>, labels: map<int, V>, a: int)
    requires forall i | 0 <= i < |ks| :: ks[i] in brackets && ks[i] in labels
    ensures a in Expand(ks, brackets, labels).vals <==> exists i :: 0 <= i < |ks| && a in brackets[ks[i]]
    decreases |ks|
  {
    if ks != [] {
      var n := |ks| - 1;
      ExpandDomain(ks[..n], brackets, labels, a);
      FillAgesAt(Expand(ks[..n], brackets, labels), brackets[ks[n]], labels[ks[n]], a);
      if exists i :: 0 <= i < |ks| && a in brackets[ks[i]] {
        var i :| 0 <= i < |ks| && a in brackets[ks[i]];
        if i < n {
          assert ks[..n][i] == ks[i];
        }
      }
    }
  }

  /** An age of the expanded table holds the labels of the last bracket that
      lists it: a later bracket overwrites an earlier one. */
  lemma {:induction false} ExpandLast<V>(ks: seq<int>, brackets: map<int, seq<int>>, labels: map<int, V>, a: int)
    requires forall i | 0 <= i < |ks| :: ks[i] in brackets && ks[i] in labels
    requires a in Expand(ks, brackets, labels).vals
    ensures exists i :: LastHolder(ks, brackets, a, i) && Expand(ks, brackets, labels).vals[a] == labels[ks[i]]
    decreases |ks|
  {
    var n := |ks| - 1;
    var prev := Expand(ks[..n], brackets, labels);
    FillAgesAt(prev, brackets[ks[n]], labels[ks[n]], a);
    if a in brackets[ks[n]] {
      assert LastHolder(ks, brackets, a, n);
    } else {
      ExpandLast(ks[..n], brackets, labels, a);
      var i :| LastHolder(ks[..n], brackets, a, i) && prev.vals[a] == labels[ks[..n][i]];
      LastHolderExtends(ks, brackets, a, i);
    }
  }

  /** The last holder among the brackets but the final one stays the last
      holder when the final bracket does not list the age. */
  lemma LastHolderExtends(ks: seq<int>, brackets: map<int, seq<int>>, a: int, i: int)
    requires forall i | 0 <= i < |ks| :: ks[i] in brackets
    requires ks != [] && a !in brackets[ks[|ks| - 1]]
    requires LastHolder(ks[..|ks| - 1], brackets, a, i)
    ensures LastHolder(ks, brackets, a, i) && ks[..|ks| - 1][i] == ks[i]
  {
    var n := |ks| - 1;
    forall j | i < j < |ks| ensures a !in brackets[ks[j]] {
      if j < n {
        assert ks[..n][j] == ks[j];
      }
    }
  }

  /** ExpandDomain and ExpandLast for every age at once. */
  lemma ExpandMeaning<V>(ks: seq<int>, brackets: map<int, seq<int>>, labels: map<int, V>)
    requires forall i | 0 <= i < |ks| :: ks[i] in brackets && ks[i] in labels
    ensures forall a :: a in Expand(ks, brackets, labels).vals <==> exists i :: 0 <= i < |ks| && a in brackets[ks[i]]
    ensures forall a | a in Expand(ks, brackets, labels).vals ::
      exists i :: LastHolder(ks, brackets, a, i) && Expand(ks, brackets, labels).vals[a] == labels[ks[i]]
  {
    forall a {
      ExpandDomain(ks, brackets, labels, a);
    }
    forall a | a in Expand(ks, brackets, labels).vals {
      ExpandLast(ks, brackets, labels, a);
    }
  }

  /** No age lies in two of the listed brackets. */
  predicate Disjoint(ks: seq<int>, brackets: map<int, seq<int>>)
    requires forall i | 0 <= i < |ks| :: ks[i] in brackets
  {
    forall i, j | 0 <= i < j < |ks| :: forall a | a in brackets[ks[i]] :: a !in brackets[ks[j]]
  }

  /** With disjoint brackets, every age of bracket ks[i] maps to the labels of ks[i]. */
  lemma ExpandDisjoint<V>(ks: seq<int>, brackets: map<int, seq<int>>, labels: map<int, V>, i: int, a: int)
    requires forall i | 0 <= i < |ks| :: ks[i] in brackets && ks[i] in labels
    requires Disjoint(ks, brackets)
    requires 0 <= i < |ks| && a in brackets[ks[i]]
    ensures a in Expand(ks, brackets, labels).vals
    ensures Expand(ks, brackets, labels).vals[a] == labels[ks[i]]
  {
    ExpandDomain(ks, brackets, labels, a);
    ExpandLast(ks, brackets, labels, a);
  }

  /** Each bracket key labels itself: the table of `get_age_by_brackets_dic`. */
  function SelfLabels(ab: Dict<int, seq<int>>): map<int, int> {
    map b | b in ab.vals :: b
  }

  /** The age-to-bracket table that `get_age_by_brackets_dic` builds. */
  function AgeToBracket(ab: Dict<int, seq<int>>): Dict<int, int>
    requires ab.Valid()
  {
    Expand(ab.keys, ab.vals, SelfLabels(ab))
  }

  /** `get_age_by_brackets_dic`: every age of every bracket is a key, no
      other age is, and an age maps to the last bracket (in dict order) that
      lists it. */
  method GetAgeByBracketsDic(ab: Dict<int, seq<int>>) returns (r: Dict<int, int>)
    requires ab.Valid()
    ensures r.Valid()
    ensures forall a :: a in r.vals <==> exists i :: 0 <= i < |ab.keys| && a in ab.vals[ab.keys[i]]
    ensures forall a | a in r.vals :: exists i :: LastHolder(ab.keys, ab.vals, a, i) && r.vals[a] == ab.keys[i]
    ensures r == AgeToBracket(ab)
  {
    ghost var labels := SelfLabels(ab);
    assert forall p | 0 <= p < |ab.keys| :: ab.keys[p] in ab.vals && ab.keys[p] in labels by {
      forall p | 0 <= p < |ab.keys| ensures ab.keys[p] in ab.vals { assert ab.keys[p] in ab.keys; }
    }
    r := Empty();
    for i := 0 to |ab.keys|
      invariant r == Expand(ab.keys[..i], ab.vals, labels)
    {
      var b := ab.keys[i];
      ExpandStep(ab.keys, ab.vals, labels, i);
      r := FillLoop(r, ab.vals[b], b);
    }
    assert ab.keys[..|ab.keys|] == ab.keys;
    ExpandMeaning(ab.keys, ab.vals, labels);
  }

  /** Rows whose inclusive ranges do not overlap (an empty range overlaps nothing). */
  predicate NonOverlapping(rows: seq<(int, int)>) {
    forall i, j | 0 <= i < j < |rows| ::
      rows[i].1 < rows[j].0 || rows[j].1 < rows[i].0 || rows[i].1 < rows[i].0 || rows[j].1 < rows[j].0
  }

  /** Brackets p < q built from non-overlapping rows share no age. */
  lemma RowsApart(rows: seq<(int, int)>, p: int, q: int, a: int)
    requires NonOverlapping(rows)
    requires 0 <= p < q < |rows|
    ensures var t := BracketTable(rows);
      q < |t.keys| && t.keys[p] in t.vals && t.keys[q] in t.vals &&
      (a in t.vals[t.keys[p]] ==> a !in t.vals[t.keys[q]])
  {
    BracketTableKeys(rows);
    RangeAt(0, |rows|, p);
    RangeAt(0, |rows|, q);
    BracketTableAt(rows, p);
    BracketTableAt(rows, q);
    RangesApart(rows[p], rows[q], a);
  }

  /** The inclusive ranges of two non-overlapping rows share no integer. */
  lemma RangesApart(x: (int, int), y: (int, int), a: int)
    requires x.1 < y.0 || y.1 < x.0 || x.1 < x.0 || y.1 < y.0
    ensures a in Range(x.0, x.1 + 1) ==> a !in Range(y.0, y.1 + 1)
  {
    RangeMember(x.0, x.1 + 1, a);
    RangeMember(y.0, y.1 + 1, a);
  }

  /** Non-overlapping rows give disjoint brackets. */
  lemma TableDisjoint(rows: seq<(int, int)>)
    requires NonOverlapping(rows)
    ensures forall p | 0 <= p < |BracketTable(rows).keys| :: BracketTable(rows).keys[p] in BracketTable(rows).vals
    ensures Disjoint(BracketTable(rows).keys, BracketTable(rows).vals)
  {
    var t := BracketTable(rows);
    forall p | 0 <= p < |t.keys| ensures t.keys[p] in t.vals { assert t.keys[p] in t.keys; }
    BracketTableKeys(rows);
    forall p, q | 0 <= p < q < |t.keys| ensures forall x | x in t.vals[t.keys[p]] :: x !in t.vals[t.keys[q]] {
      forall x | x in t.vals[t.keys[p]] ensures x !in t.vals[t.keys[q]] {
        RowsApart(rows, p, q, x);
      }
    }
  }

  /** Inverting disjoint brackets sends each age of bracket i to i. */
  lemma InvertDisjoint(t: Dict<int, seq<int>>, i: int, a: int)
    requires t.Valid()
    requires forall p | 0 <= p < |t.keys| :: t.keys[p] in t.vals
    requires Disjoint(t.keys, t.vals)
    requires 0 <= i < |t.keys| && t.keys[i] == i && a in t.vals[i]
    ensures a in AgeToBracket(t).vals && AgeToBracket(t).vals[a] == i
  {
    var labels := SelfLabels(t);
    assert forall p | 0 <= p < |t.keys| :: t.keys[p] in labels;
    ExpandDisjoint(t.keys, t.vals, labels, i, a);
  }

  /** Building brackets from non-overlapping rows and inverting them sends
      every age of row i back to bracket i. */
  lemma BracketRoundTrip(rows: seq<(int, int)>, i: int, a: int)
    requires NonOverlapping(rows)
    requires 0 <= i < |rows| && rows[i].0 <= a <= rows[i].1
    ensures a in AgeToBracket(BracketTable(rows)).vals
    ensures AgeToBracket(BracketTable(rows)).vals[a] == i
  {
    var t := BracketTable(rows);
    TableDisjoint(rows);
    BracketTableKeys(rows);
    RangeAt(0, |rows|, i);
    BracketTableAt(rows, i);
    RangeMember(rows[i].0, rows[i].1 + 1, a);
    InvertDisjoint(t, i, a);
  }

  /** `get_mortality_rates_by_age`: each bracket of the rate table is looked
      up among the mortality brackets (KeyError when absent) and its rate is
      given to each of its ages; a later bracket overwrites a shared age. */
  method GetMortalityRatesByAge(rates: Dict<int, real>, mb: Dict<int, seq<int>>) returns (r: Result<Dict<int, real>>)
    requires rates.Valid()
    ensures r.Err? <==> exists i :: 0 <= i < |rates.keys| && rates.keys[i] !in mb.vals
    ensures r.Err? ==> r.error == KeyError
    ensures r.Ok? ==> forall a :: a in r.value.vals <==> exists i :: 0 <= i < |rates.keys| && a in mb.vals[rates.keys[i]]
    ensures r.Ok? ==> forall a | a in r.value.vals ::
      exists i :: LastHolder(rates.keys, mb.vals, a, i) && r.value.vals[a] == rates.vals[rates.keys[i]]
    ensures r.Ok? ==> r.value == Expand(rates.keys, mb.vals, rates.vals)
  {
    var out := Empty();
    for i := 0 to |rates.keys|
      invariant forall p | 0 <= p < i :: rates.keys[p] in mb.vals
      invariant out == Expand(rates.keys[..i], mb.vals, rates.vals)
    {
      var b := rates.keys[i];
      if b !in mb.vals {
        return Err(KeyError);
      }
      assert b in rates.keys;
      out := FillLoop(out, mb.vals[b], rates.vals[b]);
      ExpandStep(rates.keys, mb.vals, rates.vals, i);
    }
    assert rates.keys[..|rates.keys|] == rates.keys;
    ExpandMeaning(rates.keys, mb.vals, rates.vals);
    return Ok(out);
  }

  /** `calc_death`: the rate recorded for the age; KeyError for an age
      without one. */
  function CalcDeath(personAge: int, mortalityRates: Dict<int, real>): (r: Result<real>)
    ensures r.Ok? <==> personAge in mortalityRates.vals
  {
    if personAge in mortalityRates.vals then Ok(mortalityRates.vals[personAge]) else Err(KeyError)
  }

  /** With disjoint mortality brackets, the death rate of any age in bracket
      b of the rate table is the rate of b. */
  lemma CalcDeathByBracket(rates: Dict<int, real>, mb: Dict<int, seq<int>>, i: int, a: int)
    requires rates.Valid() && forall j | 0 <= j < |rates.keys| :: rates.keys[j] in mb.vals
    requires Disjoint(rates.keys, mb.vals)
    requires 0 <= i < |rates.keys| && a in mb.vals[rates.keys[i]]
    ensures CalcDeath(a, Expand(rates.keys, mb.vals, rates.vals)) == Ok(rates.vals[rates.keys[i]])
  {
    ExpandDisjoint(rates.keys, mb.vals, rates.vals, i, a);
  }
}
