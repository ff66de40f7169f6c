# Connectivity genome of the district-network optimiser

This project is a Dafny model of the genome layer of City Energy Analyst's network optimiser,
`cea/optimization_new/helpercalsses/optimization/connectivity.py`.

A candidate district layout is a *connectivity vector*. It holds one `Connection` gene per building,
in domain order. The gene's network id is `0` for a stand-alone building and `k > 0` for a member of
thermal network `k`. The model covers:

- **the gene** (`Connections`): the building and network setters, the class-wide configuration
  (maximum network id, known building codes, zero-demand buildings) and construction;
- **the chromosome** (`Genome`):
  - canonical form, where an id held by exactly one building collapses to `0`;
  - `reset`, the `values` setter, item and slice get/set with Python's negative indices, and `generate`;
- **the key** (`Encoding`): `as_str`, with a decoder that proves the key is injective. This makes
  deduplicating by key the same as deduplicating by `__eq__`;
- **mutation** (`Mutation`): the `mutate` dispatcher and the cluster-aware `ClusterSwitch`;
- **crossover** (`Crossover`):
  - the `mate` dispatcher, `ClusterSwap`, `ClusterAlignment`, the per-cluster mode helper and
    `select_values_with_probability`;
- **selection** (`Selection`): `select`, which walks the non-dominated fronts, deduplicates by key and
  truncates to the population size.

The model is functional. A genome is an immutable datatype, and every operation returns a new one.
Every random draw is an explicit input:

- each `random.random() < p` outcome is a `bool`;
- each `randint` or `choice` result is an `int` inside the legal range.

Other external inputs are also explicit:

- The cluster index `_cluster_indexes` is a `seq<int>` parameter, where a negative id marks an outlier.
- The iteration order of `list(set(cluster_indexes))` is a parameter `order`. It must list every id
  exactly once (`ListsClusters`).
- The non-dominated fronts are an input: one sequence of keys per front, in front order. The order
  within a front is arbitrary, as `list(set(...))` makes it.

The deap primitives (`mutShuffleIndexes`, `mutUniformInt`, `cxOnePoint`, `cxTwoPoint`, `cxUniform`)
are opaque steps. Each writes a proposed legal value into every position through the gene setter,
and `reset` follows.

Every genome the source can build went through the setters. So every gene is *valid*: its building is
known or absent, its id is accepted, and a zero-demand building holds `0`. `Genome.Valid` states this.
The operators preserve it, and the swap operators assume it of their inputs.

Where the docstrings and the code differ, the model follows the code:

- `ClusterSwap` draws its clusters from `set(cluster_indexes)` without dropping negative ids. The
  outlier group can therefore be exchanged as a block, although the docstring says outliers stay
  unchanged (`Crossover.ClusterSwapMovesOutliers`).
- The cluster mode is `max(set(values), key=values.count)`. Its tie-break follows set iteration
  order, so the model promises only a value of maximal count.
- A slice `__setitem__` treats a stop of `0` as falsy, which means the end of the genome (`Genome.SetStop`).
- A slice `__setitem__` does not normalise a negative start: it walks `range(start, stop)` from the
  negative index upwards, so it wraps to the end of the genome first and then runs out of values
  (`Genome.NegativeStartOverruns`, listed under Findings).
- The outlier loop of `ClusterSwitch` runs once for every distinct negative id, and each run visits
  every outlier. With several negative ids an outlier therefore gets several coins and may be redrawn
  several times, the last successful draw winning (`Mutation.PassesOutliers`), not the single chance the
  docstring describes.

## Model

| member | source | states |
|---|---|---|
| Connections.Initialize | cea/optimization_new/helpercalsses/optimization/connectivity.py:77-82 | the zero-demand set is exactly the building codes whose demand profile is all zero |
| Connections.SetNetwork | cea/optimization_new/helpercalsses/optimization/connectivity.py:48-60 | an id is accepted iff it is `0` or in `[0, maxNetworks]`, otherwise `NotInRange`; a zero-demand building stores `0`, any other stores the id; the building is unchanged and validity is kept |
| Connections.RangeEnds | cea/optimization_new/helpercalsses/optimization/connectivity.py:53-56 | both ends of `range(maxNetworks + 1)` are accepted and the ids just outside are rejected |
| Connections.SetBuilding | cea/optimization_new/helpercalsses/optimization/connectivity.py:66-75 | a building code is accepted iff it is absent or a known code, otherwise `UnknownBuilding` |
| Connections.NewConnection | cea/optimization_new/helpercalsses/optimization/connectivity.py:37-42 | construction succeeds iff the building is known or absent and the id is accepted; the result is a valid gene holding the id unless the building is zero-demand |
| Genome.Canon | cea/optimization_new/helpercalsses/optimization/connectivity.py:105-114 | the collapse keeps the length, changes only ids that occur exactly once and are legal, and sends every such id to `0` |
| Genome.CanonCount | cea/optimization_new/helpercalsses/optimization/connectivity.py:105-114 | after the collapse a non-zero id occurs as often as before, or not at all if it was a singleton |
| Genome.CanonIsCanonical | cea/optimization_new/helpercalsses/optimization/connectivity.py:105-117 | after the collapse no non-zero legal id labels exactly one building |
| Genome.CanonFixesCanonical | cea/optimization_new/helpercalsses/optimization/connectivity.py:105-117 | a canonical value sequence is left unchanged |
| Genome.Reset | cea/optimization_new/helpercalsses/optimization/connectivity.py:190-198 | reset keeps the length and the buildings, yields the collapsed values, is canonical and keeps validity |
| Genome.ResetIdempotent | cea/optimization_new/helpercalsses/optimization/connectivity.py:190-198 | resetting twice gives the genome that resetting once gives |
| Genome.New | cea/optimization_new/helpercalsses/optimization/connectivity.py:88-93 | an empty list becomes the single default gene with id `0`; otherwise the buildings are kept and the values are collapsed; the result is canonical |
| Genome.WriteRange | cea/optimization_new/helpercalsses/optimization/connectivity.py:185-186 | the write loop succeeds iff every index and value exists and every value is accepted; then each position holds the setter's result for the last index that reached it (a negative index reaches position `index + n`), and all others are unchanged |
| Genome.SetValues | cea/optimization_new/helpercalsses/optimization/connectivity.py:124-139 | a list of another length is rejected with `LengthMismatch`; otherwise success iff every value is accepted, and each position holds the collapsed new value as the setter stores it |
| Genome.SetValuesCanLeaveSingleton | cea/optimization_new/helpercalsses/optimization/connectivity.py:124-139 | with a zero-demand building in a pair, the `values` setter leaves a non-canonical genome (`[1,1,0]` becomes `[1,0,0]`) |
| Genome.ConnectivityVector.Values | cea/optimization_new/helpercalsses/optimization/connectivity.py:119-122 | one id per connection, the id of the connection at the same position |
| Genome.Equal | cea/optimization_new/helpercalsses/optimization/connectivity.py:156-157 | two genomes are equal iff they have the same length and the same id at every position, whatever their buildings |
| Genome.CanonConnections | cea/optimization_new/helpercalsses/optimization/connectivity.py:105-114 | the collapse on connections keeps every building and yields exactly the collapsed values |
| Genome.GetItem | cea/optimization_new/helpercalsses/optimization/connectivity.py:166-167 | an integer index in `[-n, n)` returns that position's id (negative from the end), any other index fails |
| Genome.SetItem | cea/optimization_new/helpercalsses/optimization/connectivity.py:187-188 | an integer write succeeds iff the index is in `[-n, n)` and the id is accepted; only that position changes; validity is kept |
| Genome.SetItemGetItem | cea/optimization_new/helpercalsses/optimization/connectivity.py:162-188 | reading a written position back gives the stored id |
| Genome.SetItemBreaksCanonical | cea/optimization_new/helpercalsses/optimization/connectivity.py:187-198 | a single write can leave a singleton (`[1,1]` becomes `[0,1]`), which `reset` repairs to `[0,0]` |
| Genome.GetRange | cea/optimization_new/helpercalsses/optimization/connectivity.py:163-165 | a step-1 slice read returns the ids between Python's clamped bounds |
| Genome.SetRange | cea/optimization_new/helpercalsses/optimization/connectivity.py:171-186 | a step-1 slice write succeeds iff all indices and values exist and are accepted; positions `start..stop` hold `value[index - start]` as stored, a negative index writes position `index + n` unless a later index overwrites it, and the rest are unchanged |
| Genome.NegativeStartOverruns | cea/optimization_new/helpercalsses/optimization/connectivity.py:171-186 | `cv[-1:] = [v]` fails with `IndexError` on `value[1]`, after the source has already written the last position (a partial write the model does not keep) |
| Genome.SetSlice | cea/optimization_new/helpercalsses/optimization/connectivity.py:163-186 | the slice write with `__getitem__`'s bounds succeeds iff the values cover the slice and are accepted; exactly the slice's positions are written, `value[index - start]` each |
| Genome.SetSliceGetRange | cea/optimization_new/helpercalsses/optimization/connectivity.py:162-186 | for all bounds, negative and missing included: writing a slice's worth of accepted values and reading the slice back gives those values as stored, and nothing outside the slice changes |
| Genome.SetRangeGetRange | cea/optimization_new/helpercalsses/optimization/connectivity.py:162-186 | reading back a written slice gives the written values, with `0` at zero-demand buildings |
| Genome.Generate | cea/optimization_new/helpercalsses/optimization/connectivity.py:207-219 | one valid gene per known building, in domain order; `random` stores each drawn id, any other method stores `0` everywhere |
| Encoding.AsStr | cea/optimization_new/helpercalsses/optimization/connectivity.py:200-205 | a non-empty value list gives a non-empty key; `Encoding.DecodeAsStr` shows the join is inverted by decoding |
| Encoding.IntRoundTrip | cea/optimization_new/helpercalsses/optimization/connectivity.py:204 | parsing `str(v)` gives back `v` for every integer |
| Encoding.DecodeAsStr | cea/optimization_new/helpercalsses/optimization/connectivity.py:200-205 | decoding `as_str` of a value sequence gives back that sequence |
| Encoding.AsStrInjective | cea/optimization_new/helpercalsses/optimization/connectivity.py:200-205 | equal keys come from equal value sequences |
| Encoding.KeyIffEqual | cea/optimization_new/helpercalsses/optimization/connectivity.py:153-157 | two genomes have the same key iff `__eq__` holds between them |
| Encoding.AsStrExample | cea/optimization_new/helpercalsses/optimization/connectivity.py:200-205 | the key of `[0, 1, 12]` is `0_1_12` |
| Mutation.PassesMember | cea/optimization_new/helpercalsses/optimization/connectivity.py:261-268 | a cluster member is written only by the iteration of its own cluster id, and then only on its coin |
| Mutation.PassesOutliers | cea/optimization_new/helpercalsses/optimization/connectivity.py:270-274 | an outlier changes only if some outlier iteration turned up its coin, and then it holds its own draw of the last such iteration, as the setter stores it |
| Mutation.PassesOutlierValues | cea/optimization_new/helpercalsses/optimization/connectivity.py:270-274 | the same after the whole loop, read through the `values` getter |
| Mutation.OutlierKept | cea/optimization_new/helpercalsses/optimization/connectivity.py:270-274 | an outlier whose coin came up in no outlier iteration keeps its gene |
| Mutation.OutlierLastDraw | cea/optimization_new/helpercalsses/optimization/connectivity.py:270-274 | an outlier whose coin came up in outlier iteration `p`, and in no later one, holds `p`'s own draw for it as the setter stores it, whatever earlier iterations wrote |
| Mutation.OutlierValues | cea/optimization_new/helpercalsses/optimization/connectivity.py:270-274 | both directions after the whole loop, read through the `values` getter |
| Mutation.ClusterSwitch | cea/optimization_new/helpercalsses/optimization/connectivity.py:247-276 | buildings and validity are kept; a member's new id is its cluster's single draw on its coin and otherwise unchanged; an outlier whose coin never came up keeps its id, and one whose coin came up holds its own draw from the last such outlier iteration |
| Mutation.ClusterSwitchUniform | cea/optimization_new/helpercalsses/optimization/connectivity.py:261-268 | the changed members of one cluster all hold the same id |
| Mutation.ExternalWrite | cea/optimization_new/helpercalsses/optimization/connectivity.py:229-233 | a deap mutation's proposal is written through the setter: buildings and validity are kept, and each position holds the stored proposal |
| Mutation.MutateAsWritten | cea/optimization_new/helpercalsses/optimization/connectivity.py:222-245 | as written, the `ClusterSwitch` branch always fails at `reset`, and an unknown name fails |
| Mutation.Mutate | cea/optimization_new/helpercalsses/optimization/connectivity.py:222-245 | fails iff the name is unknown, with `UnsupportedMutation`; otherwise the result is a canonical genome over the same buildings, and validity is kept |
| Mutation.ClusterSwitchResetDiscrepancy | cea/optimization_new/helpercalsses/optimization/connectivity.py:234-243 | on every input the as-written `ClusterSwitch` branch fails, and the corrected one returns a canonical genome |
| Crossover.SelectWithProbability | cea/optimization_new/helpercalsses/optimization/connectivity.py:332-341 | a value is selected iff its coin came up; all coins up selects everything, none selects nothing |
| Crossover.SelectWithProbabilityAppend | cea/optimization_new/helpercalsses/optimization/connectivity.py:332-341 | selecting from a concatenation is the concatenation of the selections, so the kept values stay in their order, each as often as it was kept |
| Crossover.SwapWhere | cea/optimization_new/helpercalsses/optimization/connectivity.py:373-374 | marked positions exchange the two genomes' ids through the setter; unmarked ones are unchanged; validity is kept |
| Crossover.ClusterSwap | cea/optimization_new/helpercalsses/optimization/connectivity.py:311-330 | a position is exchanged iff the coin of its cluster id came up, outlier ids included |
| Crossover.ClusterSwapKeepsPairs | cea/optimization_new/helpercalsses/optimization/connectivity.py:324-328 | each position keeps its unordered pair of ids, and positions of unselected ids are untouched |
| Crossover.ClusterSwapInvolution | cea/optimization_new/helpercalsses/optimization/connectivity.py:311-330 | swapping twice with the same coins restores both parents |
| Crossover.ClusterSwapMovesOutliers | cea/optimization_new/helpercalsses/optimization/connectivity.py:320-328 | with all positions outliers and the coin up, the outliers are exchanged as a block |
| Crossover.ClusterValues | cea/optimization_new/helpercalsses/optimization/connectivity.py:389-390 | the cluster's list is no longer than the genome; which ids it holds is stated by `ClusterValuesHasMember` and `ClusterValuesFromMembers` |
| Crossover.ClusterValuesHasMember | cea/optimization_new/helpercalsses/optimization/connectivity.py:389-390 | every member's id is in the cluster's list |
| Crossover.ClusterValuesFromMembers | cea/optimization_new/helpercalsses/optimization/connectivity.py:389-390 | every id in the cluster's list is some member's id |
| Crossover.OneClusterValues | cea/optimization_new/helpercalsses/optimization/connectivity.py:389-390 | when every position is in the cluster, the cluster's values are the whole genome |
| Crossover.Mode | cea/optimization_new/helpercalsses/optimization/connectivity.py:391-392 | the mode is one of the values, and no value occurs more often |
| Crossover.MajorityMode | cea/optimization_new/helpercalsses/optimization/connectivity.py:391-392 | in a three-member cluster where two members agree, their id is the mode |
| Crossover.ClusterModes | cea/optimization_new/helpercalsses/optimization/connectivity.py:378-396 | one entry per position, `None` exactly at outliers |
| Crossover.ClusterModesMaximal | cea/optimization_new/helpercalsses/optimization/connectivity.py:385-396 | members of one cluster get the same mode; it is some member's id, and no member's id occurs more often in the cluster |
| Crossover.SwappableIndexes | cea/optimization_new/helpercalsses/optimization/connectivity.py:364-366 | a position is listed iff each genome holds the other's cluster mode there; the list is strictly increasing, in `enumerate` order |
| Crossover.SwappableRank | cea/optimization_new/helpercalsses/optimization/connectivity.py:364-366 | a swappable position sits in the list at the rank given by the number of swappable positions before it |
| Crossover.SelectAtRank | cea/optimization_new/helpercalsses/optimization/connectivity.py:332-341 | in a list without repeats, the element at rank `k` is selected iff coin `k` came up |
| Crossover.AlignmentSelected | cea/optimization_new/helpercalsses/optimization/connectivity.py:364-369 | a position is among the buildings to swap iff it is swappable and the coin of its rank came up |
| Crossover.AlignmentPick | cea/optimization_new/helpercalsses/optimization/connectivity.py:364-369 | a position is picked iff it is swappable and the coin of its rank among the swappable positions came up |
| Crossover.ClusterAlignment | cea/optimization_new/helpercalsses/optimization/connectivity.py:343-376 | each position is either unchanged or swappable and exchanged; it is exchanged iff it is swappable and the coin of its rank came up, so a swappable position whose coin is down keeps both values; buildings and validity are kept |
| Crossover.ClusterAlignmentAligns | cea/optimization_new/helpercalsses/optimization/connectivity.py:343-376 | a changed position is never an outlier, and each genome then holds its own pre-swap cluster mode there |
| Crossover.ClusterAlignmentAllCoins | cea/optimization_new/helpercalsses/optimization/connectivity.py:369-374 | with every coin up, every swappable position is exchanged |
| Crossover.AlignmentKeeps | cea/optimization_new/helpercalsses/optimization/connectivity.py:365-374 | a position that is not swappable keeps both ids |
| Crossover.ClusterAlignmentExample | cea/optimization_new/helpercalsses/optimization/connectivity.py:351-354 | the docstring example: `[0,0,1]` and `[1,1,0]` in one cluster become `[0,0,0]` and `[1,1,1]` |
| Crossover.ResetPair | cea/optimization_new/helpercalsses/optimization/connectivity.py:305-307 | resetting both children keeps their parents' buildings, makes both canonical and keeps validity |
| Crossover.Mate | cea/optimization_new/helpercalsses/optimization/connectivity.py:278-309 | fails iff the name is unknown, with `UnsupportedCrossover`; otherwise both children are canonical, over their parents' buildings, and valid; the cluster branches are the operator followed by `reset` |
| Selection.Index | cea/optimization_new/helpercalsses/optimization/connectivity.py:420 | every key maps to one of the input genomes, whose key it is |
| Selection.IndexKeys | cea/optimization_new/helpercalsses/optimization/connectivity.py:420 | every genome's key is in the dictionary |
| Selection.IndexBy | cea/optimization_new/helpercalsses/optimization/connectivity.py:420 | the comprehension's keys are among the given keys |
| Selection.IndexByKeys | cea/optimization_new/helpercalsses/optimization/connectivity.py:420 | every key of the comprehension is in the dictionary |
| Selection.IndexByValues | cea/optimization_new/helpercalsses/optimization/connectivity.py:420 | every entry of the dictionary is one of the key/genome pairs |
| Selection.IndexByLastWins | cea/optimization_new/helpercalsses/optimization/connectivity.py:420 | for a repeated key, the last pair with that key is kept |
| Selection.IndexLastWins | cea/optimization_new/helpercalsses/optimization/connectivity.py:420 | for a repeated key, the last genome with that key is kept |
| Selection.Walk | cea/optimization_new/helpercalsses/optimization/connectivity.py:434-445 | the picked keys are distinct, are keys of the dictionary and of the fronts, and number at most the population size |
| Selection.WalkFull | cea/optimization_new/helpercalsses/optimization/connectivity.py:436-441 | once the population is full, later keys add nothing |
| Selection.WalkCovers | cea/optimization_new/helpercalsses/optimization/connectivity.py:439-445 | every available key walked over is picked unless the population filled up |
| Selection.WalkExtends | cea/optimization_new/helpercalsses/optimization/connectivity.py:434-445 | later fronts only extend the earlier picks, and a picked key from an early front was picked early |
| Selection.FrontPriority | cea/optimization_new/helpercalsses/optimization/connectivity.py:429-445 | a genome in front `f` is picked before any picked genome absent from fronts `0..f` |
| Selection.FrontsInOrder | cea/optimization_new/helpercalsses/optimization/connectivity.py:429-445 | picks from front `f` precede picks first seen after front `f` |
| Selection.SelectsBestFront | cea/optimization_new/helpercalsses/optimization/connectivity.py:434-445 | with room for one, the genome of front 0 is chosen over the genome of front 1 |
| Selection.PickedGenomes | cea/optimization_new/helpercalsses/optimization/connectivity.py:443-445 | genomes taken for distinct picked keys come from the input list and have distinct keys |
| Selection.PickFront | cea/optimization_new/helpercalsses/optimization/connectivity.py:439-445 | the inner loop keeps the dictionary equal to the unpicked entries and extends the picks as the walk does |
| Selection.Select | cea/optimization_new/helpercalsses/optimization/connectivity.py:398-450 | the population is the dictionary's genomes for the walk's picks, in pick order: at most the population size, distinct keys, all from the input list |

## Left out

- Type checks: values are integers and building codes are strings by construction. The `isinstance`
  checks and their `ValueError`s are therefore not modelled. This includes the check in the
  `connections` setter that the list holds `Connection` objects.
- `round(value, 2)` in `__setitem__`: on integer values it is the identity, and floats are not modelled.
- Slice `__setitem__` and `__getitem__` are modelled for step 1 only. `__getitem__` hands any step to
  the list. `__setitem__` with another step still reads `value[index - start]`, so it does not pair
  the k-th index with the k-th value.
- A failing write in the source leaves the positions before it already changed. The model returns only
  the error.
- Mutation.MutateAsWritten: when the `ClusterSwitch` branch raises, the source has already switched the
  genome in place and left it unreset. The model returns only the error and drops that in-place effect,
  as it does for every failing write.
- `__hash__` is `hash(values)`, a numeric hash, and is not modelled. `__eq__` and the key depend on the
  same values (`Encoding.KeyIffEqual`).
- `__len__` is the length of `connections` and needs no member.
- `Fitness`, `Clustering(...).cluster()` and the optimisation tracker are not modelled. The fitness
  object is not part of the genome. The cluster index is a parameter. The tracker only observes the result.
- The lazy initialisation of `_cluster_indexes` on first use is not modelled. Every call receives the
  index.
- deap's mutation and crossover primitives are opaque: the model takes the values they write as an
  input proposal. `sortLogNondominated` is not modelled either: the fronts are an input.
- `random` is not modelled: every draw is an input. Drawn ids are assumed legal, as
  `choice(range(maxNetworks + 1))` and `randint(0, maxNetworks)` guarantee.
- Crossover.ClusterSwap: requires both genomes to be valid. Every genome the source builds is valid, and
  on valid genomes the setter never raises, so the source's failure path is not modelled.
- Crossover.ClusterAlignment: requires both genomes to be valid, for the same reason as `ClusterSwap`.
- Crossover.Mate: requires valid parents for the cluster branches, for the same reason.
- Crossover.Mode: promises a value of maximal count, not Python's set-order tie-break. The model
  breaks ties towards the smaller id.
- Selection.Select: the order within a front is an input, since the source takes it from a set.

## Findings

| source | as written | input that shows it | evidently intended | confidence | as-written member | corrected member |
|---|---|---|---|---|---|---|
| cea/optimization_new/helpercalsses/optimization/connectivity.py:243 | after `ClusterSwitch`, which returns the genome itself, `reset()` is called on `mutated_cv[0]`, the genome's first network id, and an int has no `reset`; by then `cv` has already been switched in place and is left unreset, an effect the as-written member drops, returning only the error | any genome mutated with `ClusterSwitch` (`Mutation.ClusterSwitchResetDiscrepancy`) | reset the mutated genome, as the deap branches do through their 1-tuples | not executed | Mutation.MutateAsWritten | Mutation.Mutate |
| cea/optimization_new/helpercalsses/optimization/connectivity.py:172-186 | the slice write iterates `range(start, stop)` with the raw bounds, so a negative start is not counted from the end | `cv[-1:] = [v]` on any genome writes the last position, then asks for `value[1]` and raises `IndexError` (`Genome.NegativeStartOverruns`) | address the same positions the slice read addresses (`Genome.SetSliceGetRange`) | not executed | Genome.SetRange | Genome.SetSlice |
