# synthpops contact sampling, modelled in Dafny

This project models the age-mixing contact sampling engine of synthpops
(`synthpops/synthpops.py`):

- the distribution normaliser;
- the categorical samplers built on a one-trial multinomial draw;
- the age-bracket tables (bracket ranges, age to bracket, per-age mortality rates);
- the population index from age to ids;
- the weighted combination of setting contact matrices;
- the per-contact age sampler and its n-fold repetition;
- the resolver from contact ages to contact ids;
- the age-sex generator with its catch-all fallback.

Modelling choices:

- **Dicts.** A Python dict is a `Dicts.Dict`: a key sequence in insertion order together with a map. Key order decides three things in the source: the order of id lists, which bracket wins for an age listed twice, and which error comes first.
- **Numbers.** Weights, rates and matrix entries are exact `real`s.
- **Errors.** Every error the code can raise is an `Err` of `Results.Result`: `KeyError`, `IndexError`, `ValueError` or `AttributeError`.
- **Random draws.** `np.random.multinomial`, `np.random.choice`, `np.random.binomial`, `pl.randint` and `pl.normal` are methods whose result is any outcome the draw can produce (`NumpyRandom`). They raise where the legacy `RandomState` generator of numpy 1.17 and later raises. In those releases `multinomial` rejects NaN and out-of-range `pvals` with `ValueError`. Older releases check `pvals` less strictly and are not modelled. The model lets an empty `pvals` give an empty outcome, so the `[0][0]` that follows raises `IndexError`. How `multinomial` treats an empty `pvals` has changed between numpy releases, so this case is release-dependent (see "Left out").
- **Default arguments.** They become required parameters: `num_agebrackets=18` (synthpops/synthpops.py:147) is the matrix size `k`, and `min_age=0, max_age=99, age_mean=40, age_std=20` (synthpops/synthpops.py:178) are arguments of `AgeSex.GetAgeSex`.
- **One-trial draw.** A position before the last can be hit only if its probability is positive. The last position receives whatever probability is left over. This is numpy's rule, and `NumpyRandom.CanHit` states it.

Three behaviours of the code are easy to miss:

- **All-zero dict in `sample_single`.** It is not rejected. `norm_dic` returns a dict whose total is zero unchanged (synthpops/synthpops.py:13-14), and numpy gives the whole probability to the last sorted key. The model therefore returns the largest key (`Sampling.SampleSingleDict`).
- **Age-sex fallback.** The bare `except` in `get_age_sex` (synthpops/synthpops.py:188) does not make the function total. A negative `age_std` makes `pl.normal` raise inside the `except` block, so `AgeSex.GetAgeSex` returns `ValueError` then.
- **Errors in `combine_matrices`.** A misshapen setting matrix raises numpy's `ValueError`, and a missing setting raises `KeyError`.

## Model

| member | source | states |
|---|---|---|
| Sampling.NormDic | synthpops/synthpops.py:8-18 | zero total: the input itself; otherwise the same keys in the same order, each value divided by the total, and the values sum to 1 |
| Sampling.ScaledTotal | synthpops/synthpops.py:12-17 | dividing every weight by t divides the total by t; dividing by the total gives total 1 |
| Sampling.SampleSingleDict | synthpops/synthpops.py:115-121 | fails exactly for an empty dict (IndexError) or weights not all of the total's sign (ValueError); the result is a key, of positive normalised weight when the total is non-zero, and the largest key when the total is zero |
| Sampling.NormalizedDrawable | synthpops/synthpops.py:116-119 | the sorted, normalised vector sums to 0 or 1 and passes numpy's checks exactly when every weight has the total's sign |
| Sampling.ZeroSortedHitsLargest | synthpops/synthpops.py:116-121 | an accepted all-zero dict can only hit the largest sorted key |
| Sampling.ZeroHitIsLast | synthpops/synthpops.py:119-120 | an all-zero vector that numpy accepts can only hit its last position |
| Sampling.PvalsOkIffNonNegative | synthpops/synthpops.py:119 | for a vector summing to 0 or 1, numpy's probability checks hold iff no entry is negative |
| Sampling.SortedValuesMembers | synthpops/synthpops.py:117-118 | the sorted-order values are the dict's values at the sorted keys, each key once |
| Sampling.SampleSingleArray | synthpops/synthpops.py:122-126 | fails exactly for a zero sum (IndexError when empty, else ValueError) or entries not of the sum's sign; otherwise an index below the length with positive normalised weight |
| Sampling.SampleBracket | synthpops/synthpops.py:128-136 | without normalising: fails exactly for an empty distribution or one numpy rejects; otherwise a position in sorted-key order that the draw can hit; `brackets` is unused |
| Sampling.NormalizedBracketDraw | synthpops/synthpops.py:132-136 | for non-negative shares summing to 1 the draw is accepted and a position can be hit iff its key's share is positive |
| NumpyRandom.OneTrialHit | synthpops/synthpops.py:119-120 | `np.where(multinomial(1, p))[0][0]`: ValueError for a vector numpy rejects, IndexError for an empty one, otherwise a hittable position |
| NumpyRandom.HitExists | synthpops/synthpops.py:119-120 | a valid non-empty vector always has a hittable position |
| NumpyRandom.NormalizedHits | synthpops/synthpops.py:119-120 | on a valid vector summing to 1, the hittable positions are exactly those of positive probability |
| NumpyRandom.ZeroVectorHitsLast | synthpops/synthpops.py:119-120 | an all-zero vector is accepted and only its last position can be hit |
| NumpyRandom.Choice | synthpops/synthpops.py:145 | `np.random.choice`: ValueError exactly for an empty collection, otherwise a member |
| NumpyRandom.Bernoulli | synthpops/synthpops.py:186 | `np.random.binomial(1, p)`: ValueError exactly outside [0, 1]; 1 only if p > 0, 0 only if p < 1 |
| NumpyRandom.RandInt2 | synthpops/synthpops.py:189 | `pl.randint(2)` is 0 or 1 |
| NumpyRandom.Normal | synthpops/synthpops.py:190 | `pl.normal`: ValueError exactly for a negative standard deviation; the mean itself when it is 0 |
| Dicts.SortedKeys | synthpops/synthpops.py:117 | `sorted(keys)`: ascending, a permutation of the keys |
| Dicts.SumProjectSorted | synthpops/synthpops.py:117-118 | reading the values in sorted-key order keeps their sum |
| Sums.SumScale | synthpops/synthpops.py:17 | dividing every entry by t divides the sum by t |
| Brackets.AgeBracketsFromRows | synthpops/synthpops.py:56-60 | keys 0..n-1 in order; bracket i is the ascending range holding exactly the ages min_i..max_i |
| Brackets.BracketTableKeys | synthpops/synthpops.py:56-60 | the bracket keys are 0..n-1, in row order |
| Brackets.BracketTableAt | synthpops/synthpops.py:57-60 | bracket i is `np.arange(min_i, max_i + 1)` of row i |
| Brackets.RangeMember | synthpops/synthpops.py:60 | `np.arange(lo, hi)` holds a iff lo <= a < hi, strictly ascending |
| Brackets.GetAgeByBracketsDic | synthpops/synthpops.py:63-71 | keys are exactly the ages of all brackets; each age maps to the last bracket in dict order that lists it |
| Brackets.ExpandDomain | synthpops/synthpops.py:67-71 | the nested fill's keys are exactly the ages of the visited brackets |
| Brackets.ExpandLast | synthpops/synthpops.py:67-71 | an age holds the label of the last bracket listing it (later brackets overwrite) |
| Brackets.ExpandDisjoint | synthpops/synthpops.py:67-71 | with disjoint brackets every age of bracket b maps to b's label |
| Brackets.FillAgesAt | synthpops/synthpops.py:69-70 | the inner fill adds exactly the bracket's ages, with the bracket's label |
| Brackets.BracketRoundTrip | synthpops/synthpops.py:57-71 | for non-overlapping rows, any age in row i's range maps back to bracket i |
| Brackets.GetMortalityRatesByAge | synthpops/synthpops.py:203-208 | KeyError exactly when some rate bracket has no age list; otherwise keys are the ages of the rate brackets and each age has the rate of the last bracket listing it |
| Brackets.CalcDeath | synthpops/synthpops.py:211-213 | the rate of the age; KeyError exactly when the age has none |
| Brackets.CalcDeathByBracket | synthpops/synthpops.py:203-213 | with disjoint mortality brackets, the death rate of any age of bracket b is b's rate |
| Population.GetIdsByAgeDic | synthpops/synthpops.py:104-109 | keys are exactly the ages present; the list at age a is the ids of age a in listing order; the list lengths sum to the number of ids |
| Population.IdsWithAgeMember | synthpops/synthpops.py:106-108 | an id is in the list at a iff it is listed with age a |
| Population.IdsKeepOrder | synthpops/synthpops.py:106-108 | each id comes right after the earlier-listed ids of its age |
| Population.IdsWithAgePrefix | synthpops/synthpops.py:106-108 | filing more ids only extends each list at its end |
| Population.LengthSumUpdate | synthpops/synthpops.py:108 | appending to one list changes the total length by the difference |
| Population.Place | synthpops/synthpops.py:107-108 | `setdefault` then `append` files the id under its age and adds one to the total length |
| Population.FileLength | synthpops/synthpops.py:107-108 | `setdefault` then `append` adds one to the total length |
| Population.FileDomain | synthpops/synthpops.py:107-108 | filing an id adds its age to the keys and nothing else |
| Population.FileLists | synthpops/synthpops.py:107-108 | filing an id appends it to its own age's list only |
| Matrices.CombineMatrices | synthpops/synthpops.py:90-94 | ValueError for a negative size; otherwise fails exactly when a weighted setting lacks a K×K matrix, with the first such setting's error (KeyError if missing, ValueError if misshapen); the result is K×K with entry (i, j) the weighted sum over the weighted settings |
| Matrices.ZeroWeights | synthpops/synthpops.py:91-94 | all-zero (or no) weights give the zero matrix |
| Matrices.OneHotWeights | synthpops/synthpops.py:91-94 | weight 1 on one setting and 0 on the rest reproduces that setting's matrix |
| Matrices.OnlyWeightedSettings | synthpops/synthpops.py:92-93 | settings without a weight do not affect the result |
| Matrices.ScaledWeights | synthpops/synthpops.py:93 | scaling every weight by c scales the result by c |
| Contacts.RowIndex | synthpops/synthpops.py:144 | `m[b, :]` is defined exactly for -n <= b < n, negative indices counting from the end |
| Contacts.SampleContactAge | synthpops/synthpops.py:138-145 | KeyError for an age without a bracket, IndexError for a bracket outside the matrix, ValueError (IndexError when empty) for a row that sums to zero or whose entries do not all have the sign of its sum, success when the row is drawable and every reachable bracket has ages; the result lies in a bracket reachable from the age's row |
| Contacts.MixedSignRowGivesNoContact | synthpops/synthpops.py:122-126 | the row [2, -1], which numpy rejects once normalised, yields no possible contact age |
| Contacts.SampleNContactAges | synthpops/synthpops.py:147-158 | fails if the matrices cannot be combined; otherwise max(n, 0) ages, each a possible contact age under the combined matrix; succeeds whenever n <= 0 or every draw is ready |
| Contacts.BracketPool | synthpops/synthpops.py:171-173 | the concatenated pool exists exactly when every age of the bracket has a pool (else KeyError) |
| Contacts.BracketPoolMember | synthpops/synthpops.py:171-173 | an id is in the concatenated pool iff it is in the pool of one of the bracket's ages |
| Contacts.GatherPool | synthpops/synthpops.py:171-173 | the loop yields the concatenated pool or its KeyError |
| Contacts.DrawContactId | synthpops/synthpops.py:167-175 | one pass of the loop: a candidate of the age (exact-age pool if non-empty, else the bracket pool), or the KeyError or ValueError of the first failing lookup or choice |
| Contacts.GetNContactIdsByAge | synthpops/synthpops.py:160-176 | fails exactly when some contact age has no candidate, with the first such age's error; otherwise the result is the set of one pick per contact age, each pick a candidate of its age |
| Contacts.DrawnFromFacts | synthpops/synthpops.py:160-176 | a set of one pick per age holds at most one id per age, only candidates, and a candidate of every age |
| Contacts.ThreeAgesTwoIds | synthpops/synthpops.py:160-176 | pools {30: [1], 31: [1], 32: [2, 3]} with contact ages 30, 31, 32 give {1, 2} or {1, 3}, never {1, 2, 3} |
| Contacts.ContactIdsAsWritten | synthpops/synthpops.py:165-176 | as written, returns only for no contact ages; any other input raises |
| Contacts.ChoiceMissing | synthpops/synthpops.py:168 | one person of age 30 with id 7: a candidate exists, yet the code as written raises AttributeError |
| Contacts.BracketChoiceMissing | synthpops/synthpops.py:170-174 | an empty exact pool whose bracket pool holds id 8: a candidate exists, yet the code as written raises AttributeError |
| AgeSex.Median3 | synthpops/synthpops.py:191 | the median is one of the three and at least two are on each side of it |
| AgeSex.PrimaryAgeSex | synthpops/synthpops.py:183-187 | succeeds when every drawable bracket has ages and a male fraction in [0, 1]; fails for an empty or rejected distribution or no male fractions; a result pairs an age of a drawable bracket with a possible Bernoulli outcome of its fraction |
| AgeSex.FractionAboveOneGivesNoDraw | synthpops/synthpops.py:186 | a male fraction of 2, on which `np.random.binomial` raises, admits no primary draw |
| AgeSex.GetAgeSex | synthpops/synthpops.py:178-192 | fails only for a negative std (ValueError); primary result when the primary path is ready; fallback when it is blocked; sex is 0 or 1; the fallback age is clamped to [min_age, max_age] and is the clamped mean for std 0 |

## Left out

- File and path helpers are not modelled: pandas reads and `os.path` joins, the CSV read in `get_age_brackets_from_df`, `get_contact_matrix`, `get_contact_matrix_dic`, `get_ages`, and the gender and age-distribution readers. `AgeBracketsFromRows` takes the rows already read.
- `synthpops/config.py` is not part of this model. It holds module-level configuration and a filesystem check only.
- Probabilities are not modelled. Draws are nondeterministic choices, so frequencies, independence and uniformity are not stated.
- Floating point is not modelled; all arithmetic is exact. numpy's 1e-12 tolerance in the multinomial sum check is dropped. The NaN/infinite entries from dividing an all-zero array become the ValueError numpy raises on them.
- Sampling.SampleSingleDict: keys are integers (`sorted` of mixed key types is not modelled); the dict/array dispatch by `type` is split into two methods.
- Matrices.CombineMatrices: a setting matrix not exactly K×K is a ValueError, although numpy accepts any shape that broadcasts to (K, K), such as a scalar or an array of shape (K,), (1, K), (K, 1), (1, 1) or (1,).
- Population.GetIdsByAgeDic: states the key set and each list, not the first-appearance order of the age keys.
- Contacts.SampleContactAge: the errors that depend on the drawn bracket are only ruled out by `Ready`; when each one happens is not stated.
- Contacts.SampleNContactAges: does not say which error a failed combination gives.
- Contacts.GetNContactIdsByAge: models the intended uniform choice and returns the set of one pick per contact age; the uniform distribution of each pick is not modelled, only which ids it can be.
- Sampling.SampleSingleDict: the IndexError for an empty dict assumes that `multinomial` with an empty `pvals` returns an empty outcome; that depends on the numpy release.
- Sampling.SampleSingleArray: the IndexError for an empty array assumes that `multinomial` with an empty `pvals` returns an empty outcome; that depends on the numpy release.
- Sampling.SampleBracket: the IndexError for an empty distribution assumes that `multinomial` with an empty `pvals` returns an empty outcome; that depends on the numpy release.
- AgeSex.PrimaryAgeSex: between `PrimaryReady` and `PrimaryBlocked` the outcome depends on the draw and is not characterised.
- AgeSex.GetAgeSex: the unused `age_by_brackets` argument is dropped. The bare `except` is modelled for the errors the primary path can raise, not for interrupts. The fallback age is a real, as the source's float.
- AgeSex.Median3: `pl.median` of more than three values is not modelled.

## Findings

| source | as written | input that shows it | evidently intended | confidence | as-written member | corrected member |
|---|---|---|---|---|---|---|
| synthpops/synthpops.py:168 | `np.choice(...)`; numpy has no `choice` attribute at top level, so any contact age that gets past the dict lookups raises AttributeError | `contact_ids_by_age_dic = {30: [7]}`, `contact_ages = [30]` | `np.random.choice(...)`: a uniform pick from the exact-age pool, here 7 | high, not executed | Contacts.ContactIdsAsWritten | Contacts.GetNContactIdsByAge |
| synthpops/synthpops.py:174 | `np.choice(potential_contacts)` in the bracket fallback has the same missing attribute | `contact_ids_by_age_dic = {30: [], 31: [8]}`, brackets `{0: [30, 31]}`, `age_by_brackets_dic = {30: 0, 31: 0}`, `contact_ages = [30]` | a uniform pick from the bracket's pooled ids, here 8 | high, not executed | Contacts.ContactIdsAsWritten | Contacts.GetNContactIdsByAge |
