/** Python dictionaries keep their keys in insertion order; several results of
    the engine depend on that order, so a dict is a key sequence plus a map. */
module Dicts {
  import opened Sums

  datatype Dict<K(==), V> = Dict(keys: seq<K>, vals: map<K, V>) {

    /** The keys are listed once each, and exactly the keys of the map are listed. */
    predicate Valid() {
      && (forall i, j | 0 <= i < j < |keys| :: keys[i] != keys[j])
      && (forall k | k in keys :: k in vals)
      && (forall k | k in vals :: k in keys)
    }

    /** `d[k] = v`: a new key goes to the end, an existing key keeps its place. */
    function Put(k: K, v: V): (r: Dict<K, V>)
      requires Valid()
      ensures r.Valid()
      ensures r.vals == vals[k := v]
      ensures |r.keys| == if k in vals then |keys| else |keys| + 1
    {
      if k in vals then Dict(keys, vals[k := v]) else Dict(keys + [k], vals[k := v])
    }
  }

  function Empty<K(==), V>(): (r: Dict<K, V>)
    ensures r.Valid() && r.keys == []
  {
    Dict([], map[])
  }

  /** `[m[k] for k in ks]` */
  function Project<K(==), V>(ks: seq<K>, m: map<K, V>): (r: seq<V>)
    requires forall k | k in ks :: k in m
    ensures |r| == |ks|
  {
    seq(|ks|, i requires 0 <= i < |ks| => m[ks[i]])
  }

  /** The dict's values in iteration order. */
  function Values<K(==), V>(d: Dict<K, V>): seq<V>
    requires d.Valid()
  {
    Project(d.keys, d.vals)
  }

  /** `np.sum([dic[i] for i in dic])`, on exact reals. */
  function Total<K(==)>(d: Dict<K, real>): real
    requires d.Valid()
  {
    Sum(Values(d))
  }

  predicate Ascending(s: seq<int>) {
    forall i, j | 0 <= i < j < |s| :: s[i] <= s[j]
  }

  /** Places x in an ascending sequence. */
  function Insert(x: int, s: seq<int>): (r: seq<int>)
    requires Ascending(s)
    ensures |r| == |s| + 1
    ensures forall y | y in r :: y == x || y in s
    ensures Ascending(r)
    ensures multiset(r) == multiset(s) + multiset{x}
  {
    if s == [] || x <= s[0] then
      assert multiset([x] + s) == multiset{x} + multiset(s);
      [x] + s
    else
      assert s == [s[0]] + s[1..];
      var t := Insert(x, s[1..]);
      assert forall j | 0 <= j < |t| :: s[0] <= t[j] by {
        forall j | 0 <= j < |t| ensures s[0] <= t[j] { assert t[j] in t; }
      }
      assert multiset([s[0]] + t) == multiset{s[0]} + multiset(t);
      [s[0]] + t
  }

  /** Python's `sorted` on integer keys: an ascending permutation of its input. */
  function SortedKeys(ks: seq<int>): (r: seq<int>)
    ensures |r| == |ks|
    ensures forall y | y in r :: y in ks
    ensures Ascending(r)
    ensures multiset(r) == multiset(ks)
  {
    if ks == [] then []
    else
      assert ks == [ks[0]] + ks[1..];
      Insert(ks[0], SortedKeys(ks[1..]))
  }

  lemma {:induction false} SumProjectInsert(x: int, s: seq<int>, m: map<int, real>)
    requires Ascending(s) && x in m && forall k | k in s :: k in m
    ensures forall k | k in Insert(x, s) :: k in m
    ensures Sum(Project(Insert(x, s), m)) == m[x] + Sum(Project(s, m))
  {
    var r := Insert(x, s);
    if s == [] || x <= s[0] {
      assert Project(r, m)[1..] == Project(s, m);
    } else {
      SumProjectInsert(x, s[1..], m);
      assert Project(r, m)[1..] == Project(Insert(x, s[1..]), m);
      assert Project(s, m)[1..] == Project(s[1..], m);
    }
  }

  /** Reading the values in sorted-key order does not change their total. */
  lemma {:induction false} SumProjectSorted(ks: seq<int>, m: map<int, real>)
    requires forall k | k in ks :: k in m
    ensures forall k | k in SortedKeys(ks) :: k in m
    ensures Sum(Project(SortedKeys(ks), m)) == Sum(Project(ks, m))
  {
    if ks != [] {
      SumProjectSorted(ks[1..], m);
      SumProjectInsert(ks[0], SortedKeys(ks[1..]), m);
      assert Project(ks, m)[1..] == Project(ks[1..], m);
    }
  }
}
