/** The population pool index: for every age, the ids of the people of that
    age, in the order the people are listed. */
module Population {
  import opened Dicts

  /** The ids of age `a`, in the order `ids` lists them. */
  function IdsWithAge(ids: seq<int>, ageOf: map<int, int>, a: int): seq<int>
    requires forall p | 0 <= p < |ids| :: ids[p] in ageOf
  {
    if ids == [] then []
    else
      var last := ids[|ids| - 1];
      IdsWithAge(ids[..|ids| - 1], ageOf, a) + (if ageOf[last] == a then [last] else [])
  }

  /** The list at age `a` holds exactly the ids whose age is `a`. */
  lemma {:induction false} IdsWithAgeMember(ids: seq<int>, ageOf: map<int, int>, a: int, x: int)
    requires forall p | 0 <= p < |ids| :: ids[p] in ageOf
    ensures x in IdsWithAge(ids, ageOf, a) <==> x in ids && x in ageOf && ageOf[x] == a
  {
    if ids != [] {
      var n := |ids| - 1;
      IdsWithAgeMember(ids[..n], ageOf, a, x);
      assert ids == ids[..n] + [ids[n]];
    }
  }

  /** Listing more ids only extends each age's list at its end. */
  lemma {:induction false} IdsWithAgePrefix(ids: seq<int>, ageOf: map<int, int>, a: int, n: nat)
    requires forall p | 0 <= p < |ids| :: ids[p] in ageOf
    requires n <= |ids|
    ensures IdsWithAge(ids[..n], ageOf, a) <= IdsWithAge(ids, ageOf, a)
    decreases |ids|
  {
    if n < |ids| {
      var m := |ids| - 1;
      assert ids[..m][..n] == ids[..n];
      IdsWithAgePrefix(ids[..m], ageOf, a, n);
    } else {
      assert ids[..n] == ids;
    }
  }

  /** One more listed id extends the list of its own age only. */
  lemma IdsWithAgeStep(ids: seq<int>, ageOf: map<int, int>, i: nat, a: int)
    requires forall p | 0 <= p < |ids| :: ids[p] in ageOf
    requires i < |ids|
    ensures IdsWithAge(ids[..i + 1], ageOf, a) == IdsWithAge(ids[..i], ageOf, a) + (if ageOf[ids[i]] == a then [ids[i]] else [])
  {
    assert ids[..i + 1][..i] == ids[..i];
  }

  /** Ids keep their order: the id at position q of age a comes right after
      the ids of age a listed before it. */
  lemma IdsKeepOrder(ids: seq<int>, ageOf: map<int, int>, q: nat)
    requires forall p | 0 <= p < |ids| :: ids[p] in ageOf
    requires q < |ids|
    ensures IdsWithAge(ids[..q], ageOf, ageOf[ids[q]]) + [ids[q]] <= IdsWithAge(ids, ageOf, ageOf[ids[q]])
  {
    var a := ageOf[ids[q]];
    assert ids[..q + 1][..q] == ids[..q];
    IdsWithAgePrefix(ids, ageOf, a, q + 1);
  }

  /** Sum of the lengths of the lists stored under the keys `ks`. */
  function LengthSum(ks: seq<int>, m: map<int, seq<int>>): nat
    requires forall p | 0 <= p < |ks| :: ks[p] in m
  {
    if ks == [] then 0 else LengthSum(ks[..|ks| - 1], m) + |m[ks[|ks| - 1]]|
  }

  /** Sum of the lengths of all the lists of an index. */
  function TotalLength(d: Dict<int, seq<int>>): nat
    requires d.Valid()
  {
    assert forall p | 0 <= p < |d.keys| :: d.keys[p] in d.vals by {
      forall p | 0 <= p < |d.keys| ensures d.keys[p] in d.vals { assert d.keys[p] in d.keys; }
    }
    LengthSum(d.keys, d.vals)
  }

  /** Entries outside the listed keys do not count. */
  lemma {:induction false} LengthSumFrame(ks: seq<int>, m: map<int, seq<int>>, k: int, v: seq<int>)
    requires forall p | 0 <= p < |ks| :: ks[p] in m
    requires k !in ks
    ensures LengthSum(ks, m[k := v]) == LengthSum(ks, m)
  {
    if ks != [] {
      var n := |ks| - 1;
      assert ks[n] in ks;
      LengthSumFrame(ks[..n], m, k, v);
    }
  }

  /** Changing the list of a key listed once changes the sum by the difference. */
  lemma {:induction false} LengthSumUpdate(ks: seq<int>, m: map<int, seq<int>>, k: int, v: seq<int>)
    requires forall p | 0 <= p < |ks| :: ks[p] in m
    requires forall i, j | 0 <= i < j < |ks| :: ks[i] != ks[j]
    requires k in ks
    ensures LengthSum(ks, m[k := v]) + |m[k]| == LengthSum(ks, m) + |v|
  {
    var n := |ks| - 1;
    if ks[n] == k {
      assert k !in ks[..n] by {
        forall p | 0 <= p < n ensures ks[..n][p] != k { assert ks[p] != ks[n]; }
      }
      LengthSumFrame(ks[..n], m, k, v);
    } else {
      assert k in ks[..n] by {
        var p :| 0 <= p < |ks| && ks[p] == k;
        assert ks[..n][p] == k;
      }
      LengthSumUpdate(ks[..n], m, k, v);
    }
  }

  /** `setdefault(age, [])` followed by `append(id)`. */
  function File(r: Dict<int, seq<int>>, age: int, id: int): Dict<int, seq<int>>
    requires r.Valid()
  {
    var s := if age in r.vals then r else r.Put(age, []);
    s.Put(age, s.vals[age] + [id])
  }

  /** A new empty list adds nothing to the total length. */
  lemma NewListLength(r: Dict<int, seq<int>>, age: int)
    requires r.Valid() && age !in r.vals
    ensures TotalLength(r.Put(age, [])) == TotalLength(r)
  {
    var s := r.Put(age, []);
    assert age !in r.keys;
    LengthSumFrame(r.keys, r.vals, age, []);
    assert s.keys[..|s.keys| - 1] == r.keys;
  }

  /** Appending to a present list adds one to the total length. */
  lemma AppendLength(s: Dict<int, seq<int>>, age: int, id: int)
    requires s.Valid() && age in s.vals
    ensures TotalLength(s.Put(age, s.vals[age] + [id])) == TotalLength(s) + 1
  {
    assert forall p | 0 <= p < |s.keys| :: s.keys[p] in s.vals;
    LengthSumUpdate(s.keys, s.vals, age, s.vals[age] + [id]);
  }

  /** Filing one id adds one to the total length. */
  lemma FileLength(r: Dict<int, seq<int>>, age: int, id: int)
    requires r.Valid()
    ensures TotalLength(File(r, age, id)) == TotalLength(r) + 1
  {
    var s := if age in r.vals then r else r.Put(age, []);
    if age !in r.vals {
      NewListLength(r, age);
    }
    AppendLength(s, age, id);
  }

  /** The ages present in `r` are those of the first i ids. */
  ghost predicate AgesOf(r: Dict<int, seq<int>>, ids: seq<int>, ageOf: map<int, int>, i: nat)
    requires forall p | 0 <= p < |ids| :: ids[p] in ageOf
    requires i <= |ids|
  {
    forall a :: a in r.vals <==> exists p :: 0 <= p < i && ageOf[ids[p]] == a
  }

  /** Each age of `r` holds the ids of that age among the first i, in order. */
  ghost predicate ListsOf(r: Dict<int, seq<int>>, ids: seq<int>, ageOf: map<int, int>, i: nat)
    requires forall p | 0 <= p < |ids| :: ids[p] in ageOf
    requires i <= |ids|
  {
    forall a | a in r.vals :: r.vals[a] == IdsWithAge(ids[..i], ageOf, a)
  }

  /** Filing id i adds its age to the ages present. */
  lemma FileDomain(r: Dict<int, seq<int>>, ids: seq<int>, ageOf: map<int, int>, i: nat)
    requires forall p | 0 <= p < |ids| :: ids[p] in ageOf
    requires i < |ids| && r.Valid()
    requires AgesOf(r, ids, ageOf, i)
    ensures AgesOf(File(r, ageOf[ids[i]], ids[i]), ids, ageOf, i + 1)
  {
    var t := File(r, ageOf[ids[i]], ids[i]);
    assert t.vals.Keys == r.vals.Keys + {ageOf[ids[i]]};
    forall a ensures a in t.vals <==> exists p :: 0 <= p < i + 1 && ageOf[ids[p]] == a {
      if a == ageOf[ids[i]] {
        assert ageOf[ids[i]] == a;
      }
    }
  }

  /** Filing id i appends it to its age's list and to no other. */
  lemma FileLists(r: Dict<int, seq<int>>, ids: seq<int>, ageOf: map<int, int>, i: nat)
    requires forall p | 0 <= p < |ids| :: ids[p] in ageOf
    requires i < |ids| && r.Valid()
    requires ListsOf(r, ids, ageOf, i) && AgesOf(r, ids, ageOf, i)
    ensures ListsOf(File(r, ageOf[ids[i]], ids[i]), ids, ageOf, i + 1)
  {
    var age, id := ageOf[ids[i]], ids[i];
    if age !in r.vals {
      forall p | 0 <= p < i ensures ageOf[ids[p]] != age { }
      IdsWithAgeAbsent(ids[..i], ageOf, age);
    }
    var t := File(r, age, id);
    forall a | a in t.vals ensures t.vals[a] == IdsWithAge(ids[..i + 1], ageOf, a) {
      IdsWithAgeStep(ids, ageOf, i, a);
    }
  }

  /** No listed id of age `a` means an empty list for `a`. */
  lemma {:induction false} IdsWithAgeAbsent(ids: seq<int>, ageOf: map<int, int>, a: int)
    requires forall p | 0 <= p < |ids| :: ids[p] in ageOf
    requires forall x | x in ids :: ageOf[x] != a
    ensures IdsWithAge(ids, ageOf, a) == []
  {
    if ids != [] {
      IdsWithAgeAbsent(ids[..|ids| - 1], ageOf, a);
    }
  }

  /** `r` indexes the first i of the listed ids: its ages are theirs, each
      age holds their ids of that age in order, and nothing else is held. */
  ghost predicate Indexes(r: Dict<int, seq<int>>, ids: seq<int>, ageOf: map<int, int>, i: nat)
    requires forall p | 0 <= p < |ids| :: ids[p] in ageOf
    requires i <= |ids|
  {
    r.Valid() && AgesOf(r, ids, ageOf, i) && ListsOf(r, ids, ageOf, i) && TotalLength(r) == i
  }

  /** Filing id i turns an index of the first i ids into one of the first i + 1. */
  lemma FileStep(before: Dict<int, seq<int>>, ids: seq<int>, ageOf: map<int, int>, i: nat)
    requires forall p | 0 <= p < |ids| :: ids[p] in ageOf
    requires i < |ids| && Indexes(before, ids, ageOf, i)
    ensures Indexes(File(before, ageOf[ids[i]], ids[i]), ids, ageOf, i + 1)
  {
    FileLength(before, ageOf[ids[i]], ids[i]);
    FileDomain(before, ids, ageOf, i);
    FileLists(before, ids, ageOf, i);
  }

  /** `dic.setdefault(age, [])` then `dic[age].append(id)`. */
  method Place(r: Dict<int, seq<int>>, age: int, id: int) returns (t: Dict<int, seq<int>>)
    requires r.Valid()
    ensures t == File(r, age, id)
    ensures t.Valid() && TotalLength(t) == TotalLength(r) + 1
  {
    t := r;
    if age !in t.vals {
      t := t.Put(age, []);
    }
    t := t.Put(age, t.vals[age] + [id]);
    FileLength(r, age, id);
  }

  /** An index of all the ids, spelled out. */
  lemma IndexesAll(r: Dict<int, seq<int>>, ids: seq<int>, ageOf: map<int, int>)
    requires forall p | 0 <= p < |ids| :: ids[p] in ageOf
    requires Indexes(r, ids, ageOf, |ids|)
    ensures r.Valid()
    ensures forall a :: a in r.vals <==> exists p :: 0 <= p < |ids| && ageOf[ids[p]] == a
    ensures forall a | a in r.vals :: r.vals[a] == IdsWithAge(ids, ageOf, a)
    ensures TotalLength(r) == |ids|
  {
    assert ids[..|ids|] == ids;
  }

  /** `get_ids_by_age_dic`: groups the ids by age; for each id, the list of
      its age is created if missing, then the id is appended to it. */
  method GetIdsByAgeDic(ageById: Dict<int, int>) returns (r: Dict<int, seq<int>>)
    requires ageById.Valid()
    ensures r.Valid()
    ensures forall a :: a in r.vals <==> exists p :: 0 <= p < |ageById.keys| && ageById.vals[ageById.keys[p]] == a
    ensures forall a | a in r.vals :: r.vals[a] == IdsWithAge(ageById.keys, ageById.vals, a)
    ensures TotalLength(r) == |ageById.keys|
  {
    ghost var ids := ageById.keys;
    ghost var ageOf := ageById.vals;
    assert forall p | 0 <= p < |ids| :: ids[p] in ageOf by {
      forall p | 0 <= p < |ids| ensures ids[p] in ageOf { assert ids[p] in ids; }
    }
    r := Empty();
    for i := 0 to |ageById.keys|
      invariant Indexes(r, ids, ageOf, i)
    {
      var id := ageById.keys[i];
      var age := ageById.vals[id];
      FileStep(r, ids, ageOf, i);
      r := Place(r, age, id);
    }
    IndexesAll(r, ids, ageOf);
  }
}
