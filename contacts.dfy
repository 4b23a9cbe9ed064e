/** Contact sampling: the age of one contact, n contact ages from the
    combined matrix, and the ids of the contacts of given ages. */
module Contacts {
  import opened Results
  import opened Sums
  import opened Dicts
  import opened NumpyRandom
  import opened Sampling
  import opened Matrices

  /** numpy row index `m[b, :]` for a matrix of n rows: a negative index
      counts from the end; anything outside [-n, n) is an IndexError. */
  function RowIndex(n: int, b: int): (r: Result<nat>)
    ensures r.Ok? <==> -n <= b < n
    ensures r.Ok? ==> r.value < n && (r.value == b || r.value == b + n)
  {
    if 0 <= b < n then Ok(b) else if -n <= b < 0 then Ok(b + n) else Err(IndexError)
  }

  /** Destination bracket d can come out of `sample_single` on this row:
      numpy accepts the normalised row and gives d a positive share. */
  predicate Reachable(row: seq<real>, d: int) {
    0 <= d < |row| && Sum(row) != 0.0 && SignedLike(row, Sum(row)) && row[d] / Sum(row) > 0.0
  }

  /** The matrix row `sample_contact_age` draws from for a person of this age. */
  function ContactRow(age: int, abd: Dict<int, int>, m: Matrix): Result<seq<real>> {
    if age !in abd.vals then Err(KeyError)
    else
      var ri := RowIndex(|m|, abd.vals[age]);
      if ri.Err? then Err(IndexError) else Ok(m[ri.value])
  }

  /** c is a possible contact age for a person of this age: it lies in a
      bracket reachable from the person's bracket row. */
  ghost predicate IsContactAge(age: int, ab: Dict<int, seq<int>>, abd: Dict<int, int>, m: Matrix, c: int) {
    var row := ContactRow(age, abd, m);
    row.Ok? && exists d :: Reachable(row.value, d) && d in ab.vals && c in ab.vals[d]
  }

  /** Nothing in the draw can fail: the row is a proper distribution and
      every reachable bracket exists and holds ages. */
  predicate Ready(age: int, ab: Dict<int, seq<int>>, abd: Dict<int, int>, m: Matrix) {
    var row := ContactRow(age, abd, m);
    && row.Ok?
    && Sum(row.value) != 0.0
    && SignedLike(row.value, Sum(row.value))
    && forall d | 0 <= d < |row.value| && Reachable(row.value, d) :: d in ab.vals && ab.vals[d] != []
  }

  /** `sample_contact_age`: age to bracket, bracket to matrix row, a
      destination bracket drawn from the row, a uniform age within it. */
  method SampleContactAge(age: int, ab: Dict<int, seq<int>>, abd: Dict<int, int>, m: Matrix) returns (r: Result<int>)
    ensures age !in abd.vals ==> r == Err(KeyError)
    ensures age in abd.vals && !(-|m| <= abd.vals[age] < |m|) ==> r == Err(IndexError)
    ensures ContactRow(age, abd, m).Ok? ==>
      var row := ContactRow(age, abd, m).value;
      Sum(row) == 0.0 || !SignedLike(row, Sum(row)) ==> r == Err(if row == [] then IndexError else ValueError)
    ensures Ready(age, ab, abd, m) ==> r.Ok?
    ensures r.Ok? ==> IsContactAge(age, ab, abd, m, r.value)
  {
    if age !in abd.vals {
      return Err(KeyError);
    }
    var ri := RowIndex(|m|, abd.vals[age]);
    if ri.Err? {
      return Err(IndexError);
    }
    var row := m[ri.value];
    var d := SampleSingleArray(row);
    if d.Err? {
      return Err(d.error);
    }
    assert Reachable(row, d.value);
    if d.value !in ab.vals {
      return Err(KeyError);
    }
    var c := Choice(ab.vals[d.value]);
    if c.Err? {
      return Err(c.error);
    }
    return Ok(c.value);
  }

  /** The mixed-sign row [2, -1] sums to 1 but numpy rejects it once
      normalised, so no contact age comes out of it. */
  lemma MixedSignRowGivesNoContact(c: int)
    ensures !IsContactAge(10, Dict([0], map[0 := [5]]), Dict([10], map[10 := 0]), [[2.0, -1.0]], c)
  {
    var row := [2.0, -1.0];
    assert Sum(row) == 1.0 by { assert row[..1] == [2.0]; assert [2.0][..0] == []; }
    assert !SignedLike(row, Sum(row)) by { assert row[1] / Sum(row) < 0.0; }
  }

  /** `sample_n_contact_ages`: combines the setting matrices, then draws
      `n` contact ages independently (`range(n)` is empty for n <= 0). */
  method SampleNContactAges(n: int, age: int, ab: Dict<int, seq<int>>, abd: Dict<int, int>,
                            md: map<string, Matrix>, w: Dict<string, real>, k: int) returns (r: Result<seq<int>>)
    requires w.Valid()
    ensures !Combinable(md, w, k) ==> r.Err?
    ensures r.Ok? ==> Combinable(md, w, k) && |r.value| == (if n < 0 then 0 else n)
    ensures r.Ok? ==> forall i | 0 <= i < |r.value| :: IsContactAge(age, ab, abd, Combined(md, w, k), r.value[i])
    ensures Combinable(md, w, k) && (n <= 0 || Ready(age, ab, abd, Combined(md, w, k))) ==> r.Ok?
  {
    assert forall p | 0 <= p < |w.keys| :: w.keys[p] in w.vals by {
      forall p | 0 <= p < |w.keys| ensures w.keys[p] in w.vals { assert w.keys[p] in w.keys; }
    }
    var mr := CombineMatrices(md, w, k);
    if mr.Err? {
      return Err(mr.error);
    }
    var count := if n < 0 then 0 else n;
    var ages := [];
    for i := 0 to count
      invariant |ages| == i
      invariant forall q | 0 <= q < i :: IsContactAge(age, ab, abd, mr.value, ages[q])
    {
      var c := SampleContactAge(age, ab, abd, mr.value);
      if c.Err? {
        return Err(c.error);
      }
      ages := ages + [c.value];
    }
    return Ok(ages);
  }

  /** `potential_contacts += contact_ids_by_age_dic[a]` over the ages of a
      bracket: the ids of those ages, in order; KeyError for an age without
      a pool. */
  function BracketPool(pool: Dict<int, seq<int>>, ages: seq<int>): (r: Result<seq<int>>)
    ensures r.Ok? <==> forall p | 0 <= p < |ages| :: ages[p] in pool.vals
    ensures r.Err? ==> r.error == KeyError
  {
    if ages == [] then Ok([])
    else
      var last := ages[|ages| - 1];
      var front := BracketPool(pool, ages[..|ages| - 1]);
      if front.Err? then front
      else if last !in pool.vals then Err(KeyError)
      else Ok(front.value + pool.vals[last])
  }

  /** The bracket pool holds exactly the ids pooled under the bracket's ages. */
  lemma {:induction false} BracketPoolMember(pool: Dict<int, seq<int>>, ages: seq<int>, id: int)
    requires BracketPool(pool, ages).Ok?
    ensures id in BracketPool(pool, ages).value <==> exists p :: 0 <= p < |ages| && id in pool.vals[ages[p]]
  {
    if ages != [] {
      var n := |ages| - 1;
      BracketPoolMember(pool, ages[..n], id);
      if id in pool.vals[ages[n]] {
        assert 0 <= n < |ages| && id in pool.vals[ages[n]];
      }
      if exists p :: 0 <= p < |ages| && id in pool.vals[ages[p]] {
        var p :| 0 <= p < |ages| && id in pool.vals[ages[p]];
        if p < n {
          assert ages[..n][p] == ages[p];
        }
      }
    }
  }

  /** The loop that concatenates the pools of a bracket's ages, in order. */
  method GatherPool(pool: Dict<int, seq<int>>, bucket: seq<int>) returns (r: Result<seq<int>>)
    ensures r == BracketPool(pool, bucket)
  {
    var potential := [];
    for j := 0 to |bucket|
      invariant BracketPool(pool, bucket[..j]) == Ok(potential)
    {
      assert bucket[..j + 1][..j] == bucket[..j];
      if bucket[j] !in pool.vals {
        assert !BracketPool(pool, bucket).Ok?;
        return Err(KeyError);
      }
      potential := potential + pool.vals[bucket[j]];
    }
    assert bucket[..|bucket|] == bucket;
    return Ok(potential);
  }

  /** The ids a contact of this age is drawn from: the exact-age pool when
      it is non-empty, otherwise the pools of every age of its bracket. */
  function Candidates(pool: Dict<int, seq<int>>, ab: Dict<int, seq<int>>, abd: Dict<int, int>, age: int): Result<seq<int>> {
    if age !in pool.vals then Err(KeyError)
    else if |pool.vals[age]| > 0 then Ok(pool.vals[age])
    else if age !in abd.vals || abd.vals[age] !in ab.vals then Err(KeyError)
    else BracketPool(pool, ab.vals[abd.vals[age]])
  }

  /** A contact of this age can be drawn. */
  predicate Resolvable(c: Result<seq<int>>) {
    c.Ok? && c.value != []
  }

  /** Some chosen id is a candidate for this contact age. */
  ghost predicate Covered(ids: set<int>, c: Result<seq<int>>) {
    c.Ok? && exists id :: id in ids && id in c.value
  }

  /** `picks` is one candidate id per contact age, in order, and `ids` is
      the set of exactly those picks. */
  ghost predicate DrawnFrom(ids: set<int>, picks: seq<int>, pool: Dict<int, seq<int>>, ages: seq<int>, ab: Dict<int, seq<int>>, abd: Dict<int, int>) {
    |picks| == |ages| &&
    (forall i | 0 <= i < |ages| :: Candidates(pool, ab, abd, ages[i]).Ok? && picks[i] in Candidates(pool, ab, abd, ages[i]).value) &&
    (forall x :: x in ids <==> x in picks)
  }

  /** Drawing one more id for one more contact age. */
  lemma DrawnFromStep(ids: set<int>, picks: seq<int>, pool: Dict<int, seq<int>>, ages: seq<int>, ab: Dict<int, seq<int>>, abd: Dict<int, int>, i: nat, id: int)
    requires i < |ages| && DrawnFrom(ids, picks, pool, ages[..i], ab, abd)
    requires Candidates(pool, ab, abd, ages[i]).Ok? && id in Candidates(pool, ab, abd, ages[i]).value
    ensures DrawnFrom(ids + {id}, picks + [id], pool, ages[..i + 1], ab, abd)
  {
  }

  /** A set of picks holds at most as many ids as there are picks. */
  lemma {:induction false} PicksBound(ids: set<int>, picks: seq<int>)
    requires forall x :: x in ids <==> x in picks
    ensures |ids| <= |picks|
  {
    if picks == [] {
      assert forall x | x in ids :: x in picks;
      assert ids == {};
    } else {
      var n := |picks| - 1;
      var last := picks[n];
      var rest := if last in picks[..n] then ids else ids - {last};
      forall x
        ensures x in rest <==> x in picks[..n]
      {
        if x in picks {
          var k :| 0 <= k < |picks| && picks[k] == x;
          if k < n {
            assert picks[..n][k] == x;
          }
        }
        if x in picks[..n] {
          var k :| 0 <= k < n && picks[..n][k] == x;
          assert picks[k] == x;
        }
      }
      PicksBound(rest, picks[..n]);
    }
  }

  /** What a run of draws promises: at most one id per contact age, every
      id a candidate of some age, and every age served by some id. */
  lemma DrawnFromFacts(ids: set<int>, picks: seq<int>, pool: Dict<int, seq<int>>, ages: seq<int>, ab: Dict<int, seq<int>>, abd: Dict<int, int>)
    requires DrawnFrom(ids, picks, pool, ages, ab, abd)
    ensures |ids| <= |ages|
    ensures forall i | 0 <= i < |ages| :: Resolvable(Candidates(pool, ab, abd, ages[i])) && Covered(ids, Candidates(pool, ab, abd, ages[i]))
    ensures forall id | id in ids :: exists i :: 0 <= i < |ages| && id in Candidates(pool, ab, abd, ages[i]).value
  {
    PicksBound(ids, picks);
    forall i | 0 <= i < |ages|
      ensures Resolvable(Candidates(pool, ab, abd, ages[i])) && Covered(ids, Candidates(pool, ab, abd, ages[i]))
    {
      var c := Candidates(pool, ab, abd, ages[i]);
      var id := picks[i];
      assert id in ids && id in c.value;
      assert Covered(ids, c);
    }
    forall id | id in ids
      ensures exists i :: 0 <= i < |ages| && id in Candidates(pool, ab, abd, ages[i]).value
    {
      var k :| 0 <= k < |picks| && picks[k] == id;
    }
  }

  /** For pools {30: [1], 31: [1], 32: [2, 3]} and contact ages 30, 31, 32
      the first two draws give 1 and the third 2 or 3, so the result is
      {1, 2} or {1, 3} and never {1, 2, 3}. */
  lemma ThreeAgesTwoIds(ids: set<int>, picks: seq<int>)
    ensures DrawnFrom(ids, picks, Dict([30, 31, 32], map[30 := [1], 31 := [1], 32 := [2, 3]]), [30, 31, 32], Empty(), Empty()) ==>
      ids == {1, 2} || ids == {1, 3}
  {
    var pool := Dict([30, 31, 32], map[30 := [1], 31 := [1], 32 := [2, 3]]);
    if DrawnFrom(ids, picks, pool, [30, 31, 32], Empty(), Empty()) {
      assert Candidates(pool, Empty(), Empty(), 30) == Ok([1]);
      assert Candidates(pool, Empty(), Empty(), 31) == Ok([1]);
      assert Candidates(pool, Empty(), Empty(), 32) == Ok([2, 3]);
      var last := picks[2];
      assert picks == [1, 1, last] && (last == 2 || last == 3);
      assert forall x :: x in ids <==> x in {1, last};
    }
  }

  /** The error for a contact age that cannot be drawn: the lookup's
      KeyError, or the ValueError of a choice among no ids. */
  function Failure(c: Result<seq<int>>): Error {
    if c.Err? then c.error else ValueError
  }

  /** One pass of the loop of `get_n_contact_ids_by_age`: a uniform choice
      from the exact-age pool, or from the bracket's pool when that is empty. */
  method DrawContactId(pool: Dict<int, seq<int>>, age: int, ab: Dict<int, seq<int>>, abd: Dict<int, int>)
    returns (r: Result<int>)
    ensures r.Ok? <==> Resolvable(Candidates(pool, ab, abd, age))
    ensures r.Ok? ==> r.value in Candidates(pool, ab, abd, age).value
    ensures r.Err? ==> r.error == Failure(Candidates(pool, ab, abd, age))
  {
    if age !in pool.vals {
      return Err(KeyError);
    }
    if |pool.vals[age]| > 0 {
      var c := Choice(pool.vals[age]);
      return Ok(c.value);
    }
    if age !in abd.vals {
      return Err(KeyError);
    }
    var b := abd.vals[age];
    if b !in ab.vals {
      return Err(KeyError);
    }
    var potential := GatherPool(pool, ab.vals[b]);
    if potential.Err? {
      return Err(KeyError);
    }
    var c := Choice(potential.value);
    if c.Err? {
      return Err(ValueError);
    }
    return Ok(c.value);
  }

  /** `get_n_contact_ids_by_age`, with the uniform choice its authors meant
      at lines 168 and 174: one id per contact age, collected in a set. */
  method GetNContactIdsByAge(pool: Dict<int, seq<int>>, ages: seq<int>, ab: Dict<int, seq<int>>, abd: Dict<int, int>)
    returns (r: Result<set<int>>)
    ensures r.Ok? <==> forall i | 0 <= i < |ages| :: Resolvable(Candidates(pool, ab, abd, ages[i]))
    ensures r.Err? ==>
      exists i :: 0 <= i < |ages| && !Resolvable(Candidates(pool, ab, abd, ages[i])) &&
        (forall q | 0 <= q < i :: Resolvable(Candidates(pool, ab, abd, ages[q]))) &&
        r.error == Failure(Candidates(pool, ab, abd, ages[i]))
    ensures r.Ok? ==> |r.value| <= |ages|
    ensures r.Ok? ==> forall id | id in r.value :: exists i :: 0 <= i < |ages| && id in Candidates(pool, ab, abd, ages[i]).value
    ensures r.Ok? ==> forall i | 0 <= i < |ages| :: Covered(r.value, Candidates(pool, ab, abd, ages[i]))
    ensures r.Ok? ==> exists picks :: DrawnFrom(r.value, picks, pool, ages, ab, abd)
  {
    var ids: set<int> := {};
    ghost var picks: seq<int> := [];
    for i := 0 to |ages|
      invariant DrawnFrom(ids, picks, pool, ages[..i], ab, abd)
    {
      var d := DrawContactId(pool, ages[i], ab, abd);
      if d.Err? {
        DrawnFromFacts(ids, picks, pool, ages[..i], ab, abd);
        assert forall q | 0 <= q < i :: ages[..i][q] == ages[q];
        return Err(d.error);
      }
      DrawnFromStep(ids, picks, pool, ages, ab, abd, i, d.value);
      picks := picks + [d.value];
      ids := ids + {d.value};
    }
    assert ages[..|ages|] == ages;
    DrawnFromFacts(ids, picks, pool, ages, ab, abd);
    return Ok(ids);
  }

  /** `get_n_contact_ids_by_age` as written: `np.choice` is not an attribute
      of numpy, so reaching either choice raises AttributeError; only the
      lookups before it can fail first, and only no contact ages at all
      returns. */
  function ContactIdsAsWritten(pool: Dict<int, seq<int>>, ages: seq<int>, ab: Dict<int, seq<int>>, abd: Dict<int, int>): (r: Result<set<int>>)
    ensures r.Ok? <==> ages == []
    ensures r.Ok? ==> r.value == {}
  {
    if ages == [] then Ok({})
    else
      var c := Candidates(pool, ab, abd, ages[0]);
      if c.Err? then Err(c.error) else Err(AttributeError)
  }

  /** One person of age 30 with id 7: the intended choice must return
      {7}, but the code as written raises AttributeError. */
  lemma ChoiceMissing()
    ensures ContactIdsAsWritten(Dict([30], map[30 := [7]]), [30], Empty(), Empty()) == Err(AttributeError)
    ensures Candidates(Dict([30], map[30 := [7]]), Empty(), Empty(), 30) == Ok([7])
  {
  }

  /** Nobody of age 30, one person of age 31 with id 8, both ages in
      bracket 0: the bracket pool offers 8, but the code as written raises
      AttributeError at the second choice. */
  lemma BracketChoiceMissing()
    ensures ContactIdsAsWritten(Dict([30, 31], map[30 := [], 31 := [8]]), [30],
                                Dict([0], map[0 := [30, 31]]), Dict([30, 31], map[30 := 0, 31 := 0])) == Err(AttributeError)
    ensures Candidates(Dict([30, 31], map[30 := [], 31 := [8]]), Dict([0], map[0 := [30, 31]]),
                       Dict([30, 31], map[30 := 0, 31 := 0]), 30) == Ok([8])
  {
    var pool := Dict([30, 31], map[30 := [], 31 := [8]]);
    assert [30, 31][..1] == [30];
    var none: seq<int> := [];
    assert [30][..0] == none;
    assert BracketPool(pool, none) == Ok(none);
    assert pool.vals[30] == none && 30 in pool.vals;
    assert BracketPool(pool, [30]) == Ok(none + none);
    assert BracketPool(pool, [30, 31]) == Ok(none + none + [8]);
    assert none + none + [8] == [8];
    var ab := Dict([0], map[0 := [30, 31]]);
    var abd := Dict([30, 31], map[30 := 0, 31 := 0]);
    assert abd.vals[30] == 0 && ab.vals[0] == [30, 31];
  }
}
