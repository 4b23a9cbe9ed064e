/** Setting-specific contact matrices and their weighted combination. A
    matrix is a sequence of rows; `IsSquare(m, k)` says it is k by k. */
module Matrices {
  import opened Results
  import opened Dicts

  type Matrix = seq<seq<real>>

  predicate IsSquare(m: Matrix, k: int) {
    |m| == k && forall r | 0 <= r < |m| :: |m[r]| == k
  }

  /** `np.zeros((k, k))` */
  function Zeros(k: nat): (r: Matrix)
    ensures IsSquare(r, k)
  {
    seq(k, _ => seq(k, _ => 0.0))
  }

  /** `m + x * c` for two k by k matrices, entry by entry. */
  function AddScaled(m: Matrix, x: Matrix, c: real, k: nat): (r: Matrix)
    requires IsSquare(m, k) && IsSquare(x, k)
    ensures IsSquare(r, k)
  {
    seq(k, i requires 0 <= i < k => seq(k, j requires 0 <= j < k => m[i][j] + x[i][j] * c))
  }

  /** Setting `s` can be added to a k by k sum. */
  predicate Usable(md: map<string, Matrix>, s: string, k: int) {
    s in md && IsSquare(md[s], k)
  }

  /** Entry (i, j) of the weighted sum over the settings `ss`, as a reference
      definition: the sum of weight times entry, setting by setting. */
  function WeightedEntry(ss: seq<string>, md: map<string, Matrix>, w: map<string, real>, k: nat, i: nat, j: nat): real
    requires forall p | 0 <= p < |ss| :: Usable(md, ss[p], k) && ss[p] in w
    requires i < k && j < k
  {
    if ss == [] then 0.0
    else
      var s := ss[|ss| - 1];
      assert Usable(md, s, k) && s in w;
      WeightedEntry(ss[..|ss| - 1], md, w, k, i, j) + w[s] * md[s][i][j]
  }

  /** Every weighted setting has a k by k matrix. */
  predicate Combinable(md: map<string, Matrix>, w: Dict<string, real>, k: int) {
    && k >= 0
    && (forall p | 0 <= p < |w.keys| :: Usable(md, w.keys[p], k))
    && (forall p | 0 <= p < |w.keys| :: w.keys[p] in w.vals)
  }

  /** The combined matrix, entry by entry. */
  function Combined(md: map<string, Matrix>, w: Dict<string, real>, k: int): (r: Matrix)
    requires Combinable(md, w, k)
    ensures IsSquare(r, k)
  {
    seq(k, i requires 0 <= i < k => seq(k, j requires 0 <= j < k => WeightedEntry(w.keys, md, w.vals, k, i, j)))
  }

  /** The error `combine_matrices` raises on the first setting it cannot
      add: KeyError for a setting without a matrix, ValueError for a matrix
      of the wrong shape. */
  function Complaint(md: map<string, Matrix>, s: string): Error {
    if s in md then ValueError else KeyError
  }

  /** Adding the matrix of setting t, scaled by its weight, extends the
      entry-wise sum over the first t settings to the first t + 1. */
  lemma AddStep(ss: seq<string>, md: map<string, Matrix>, w: map<string, real>, k: nat, t: nat, m: Matrix)
    requires t < |ss| && forall p | 0 <= p < t :: Usable(md, ss[p], k) && ss[p] in w
    requires Usable(md, ss[t], k) && ss[t] in w
    requires IsSquare(m, k)
    requires forall i, j | 0 <= i < k && 0 <= j < k :: m[i][j] == WeightedEntry(ss[..t], md, w, k, i, j)
    ensures forall i, j | 0 <= i < k && 0 <= j < k ::
      AddScaled(m, md[ss[t]], w[ss[t]], k)[i][j] == WeightedEntry(ss[..t + 1], md, w, k, i, j)
  {
    assert ss[..t + 1][..t] == ss[..t];
  }

  /** A k by k matrix whose entries are the weighted entries is the combination. */
  lemma EntriesMakeCombined(md: map<string, Matrix>, w: Dict<string, real>, k: int, m: Matrix)
    requires Combinable(md, w, k) && IsSquare(m, k)
    requires forall i, j | 0 <= i < k && 0 <= j < k :: m[i][j] == WeightedEntry(w.keys, md, w.vals, k, i, j)
    ensures m == Combined(md, w, k)
  {
    var c := Combined(md, w, k);
    forall i | 0 <= i < k ensures m[i] == c[i] {
      assert |m[i]| == |c[i]|;
    }
  }

  /** `combine_matrices`: starts from the k by k zero matrix and adds each
      weighted setting matrix in the weights' order. */
  method CombineMatrices(md: map<string, Matrix>, w: Dict<string, real>, k: int) returns (r: Result<Matrix>)
    requires w.Valid()
    ensures k < 0 ==> r == Err(ValueError)
    ensures k >= 0 ==> (r.Ok? <==> forall p | 0 <= p < |w.keys| :: Usable(md, w.keys[p], k))
    ensures k >= 0 && r.Err? ==>
      exists p :: 0 <= p < |w.keys| && !Usable(md, w.keys[p], k) &&
        (forall q | 0 <= q < p :: Usable(md, w.keys[q], k)) && r.error == Complaint(md, w.keys[p])
    ensures r.Ok? ==> Combinable(md, w, k) && r.value == Combined(md, w, k)
  {
    if k < 0 {
      return Err(ValueError);
    }
    var m := Zeros(k);
    for t := 0 to |w.keys|
      invariant forall p | 0 <= p < t :: Usable(md, w.keys[p], k) && w.keys[p] in w.vals
      invariant IsSquare(m, k)
      invariant forall i, j | 0 <= i < k && 0 <= j < k :: m[i][j] == WeightedEntry(w.keys[..t], md, w.vals, k, i, j)
    {
      var s := w.keys[t];
      if !(s in md && IsSquare(md[s], k)) {
        return Err(Complaint(md, s));
      }
      assert s in w.keys;
      AddStep(w.keys, md, w.vals, k, t, m);
      m := AddScaled(m, md[s], w.vals[s], k);
    }
    assert w.keys[..|w.keys|] == w.keys;
    EntriesMakeCombined(md, w, k, m);
    return Ok(m);
  }

  /** With every weight zero the combination is the zero matrix (in
      particular for an empty weight set). */
  lemma {:induction false} ZeroWeights(ss: seq<string>, md: map<string, Matrix>, w: map<string, real>, k: nat, i: nat, j: nat)
    requires forall p | 0 <= p < |ss| :: Usable(md, ss[p], k) && ss[p] in w && w[ss[p]] == 0.0
    requires i < k && j < k
    ensures WeightedEntry(ss, md, w, k, i, j) == 0.0
  {
    if ss != [] {
      ZeroWeights(ss[..|ss| - 1], md, w, k, i, j);
    }
  }

  /** A weight of one on a single listed setting and zero on all others
      gives that setting's matrix. */
  lemma {:induction false} OneHotWeights(ss: seq<string>, md: map<string, Matrix>, w: map<string, real>, k: nat, s: string, i: nat, j: nat)
    requires forall p | 0 <= p < |ss| :: Usable(md, ss[p], k) && ss[p] in w
    requires forall p | 0 <= p < |ss| :: w[ss[p]] == if ss[p] == s then 1.0 else 0.0
    requires forall p, q | 0 <= p < q < |ss| :: ss[p] != ss[q]
    requires s in ss && i < k && j < k
    ensures WeightedEntry(ss, md, w, k, i, j) == md[s][i][j]
  {
    var n := |ss| - 1;
    if ss[n] == s {
      forall p | 0 <= p < n ensures w[ss[..n][p]] == 0.0 {
        assert ss[p] != ss[n];
      }
      ZeroWeights(ss[..n], md, w, k, i, j);
    } else {
      assert s in ss[..n] by {
        var p :| 0 <= p < |ss| && ss[p] == s;
        assert ss[..n][p] == s;
      }
      OneHotWeights(ss[..n], md, w, k, s, i, j);
    }
  }

  /** Only the settings listed in the weights matter: two matrix tables
      that agree on them give the same combination. */
  lemma {:induction false} OnlyWeightedSettings(ss: seq<string>, md: map<string, Matrix>, md': map<string, Matrix>, w: map<string, real>, k: nat, i: nat, j: nat)
    requires forall p | 0 <= p < |ss| :: Usable(md, ss[p], k) && ss[p] in w
    requires forall p | 0 <= p < |ss| :: ss[p] in md && ss[p] in md' && md'[ss[p]] == md[ss[p]]
    requires i < k && j < k
    ensures forall p | 0 <= p < |ss| :: Usable(md', ss[p], k)
    ensures WeightedEntry(ss, md, w, k, i, j) == WeightedEntry(ss, md', w, k, i, j)
  {
    if ss != [] {
      OnlyWeightedSettings(ss[..|ss| - 1], md, md', w, k, i, j);
    }
  }

  /** Scaling every weight by c scales the combination by c. */
  lemma {:induction false} ScaledWeights(ss: seq<string>, md: map<string, Matrix>, w: map<string, real>, w': map<string, real>, c: real, k: nat, i: nat, j: nat)
    requires forall p | 0 <= p < |ss| :: Usable(md, ss[p], k) && ss[p] in w && ss[p] in w'
    requires forall p | 0 <= p < |ss| :: w'[ss[p]] == c * w[ss[p]]
    requires i < k && j < k
    ensures WeightedEntry(ss, md, w', k, i, j) == c * WeightedEntry(ss, md, w, k, i, j)
  {
    if ss != [] {
      ScaledWeights(ss[..|ss| - 1], md, w, w', c, k, i, j);
    }
  }
}
