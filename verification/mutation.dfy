/** `mutate` and the cluster-aware `ClusterSwitch` mutation. */
module Mutation {
  import opened Wrappers
  import opened Seqs
  import opened Connections
  import opened Genome

  /** The draws one iteration of `ClusterSwitch`'s loop over `list(set(cluster_indexes))` consumes:
      `value` is the cluster's `random.choice`, `coins[i]` the outcome of `random.random() < mut_prob`
      when position `i` is visited, and `outlierValues[i]` the choice drawn for outlier `i`. */
  datatype PassDraws = PassDraws(value: int, coins: seq<bool>, outlierValues: seq<int>)

  /** Draws for a genome of length `n`; every `random.choice` lies in `list(range(maxNetworks + 1))`. */
  predicate DrawFits(cfg: Config, n: nat, d: PassDraws)
  {
    && |d.coins| == n && |d.outlierValues| == n
    && InRange(cfg, d.value)
    && forall i :: 0 <= i < n ==> InRange(cfg, d.outlierValues[i])
  }

  /** One set of draws per cluster id, in the iteration order `order`. */
  predicate PassesFit(cfg: Config, n: nat, order: seq<int>, passes: seq<PassDraws>)
  {
    |passes| == |order| && forall p :: 0 <= p < |passes| ==> DrawFits(cfg, n, passes[p])
  }

  /** One iteration for cluster id `c`. A cluster (`c >= 0`) moves each member, on its coin, to the
      cluster's one drawn value; an outlier id (`c < 0`) moves every outlier, on its coin, to its own
      draw. Each write goes through the gene setter and touches only its own position. */
  function Pass(cfg: Config, conns: seq<Connection>, idx: seq<int>, c: int, d: PassDraws): (r: seq<Connection>)
    requires |idx| == |conns| && DrawFits(cfg, |conns|, d)
    ensures |r| == |conns|
  {
    seq(|conns|, i requires 0 <= i < |conns| =>
      if c >= 0 then
        (if idx[i] == c && d.coins[i] then Write(cfg, conns[i], d.value) else conns[i])
      else
        (if idx[i] < 0 && d.coins[i] then Write(cfg, conns[i], d.outlierValues[i]) else conns[i]))
  }

  /** The first `k` iterations of the loop. */
  function Passes(cfg: Config, conns: seq<Connection>, idx: seq<int>, order: seq<int>,
                  passes: seq<PassDraws>, k: nat): (r: seq<Connection>)
    requires |idx| == |conns| && PassesFit(cfg, |conns|, order, passes) && k <= |order|
    ensures |r| == |conns|
    ensures forall i :: 0 <= i < |conns| ==> r[i].building == conns[i].building
  {
    if k == 0 then conns
    else Pass(cfg, Passes(cfg, conns, idx, order, passes, k - 1), idx, order[k - 1], passes[k - 1])
  }

  /** The loop keeps every gene acceptable and pinned: all draws are legal ids. */
  lemma {:induction false} PassesValid(cfg: Config, conns: seq<Connection>, idx: seq<int>, order: seq<int>,
                                       passes: seq<PassDraws>, k: nat)
    requires |idx| == |conns| && PassesFit(cfg, |conns|, order, passes) && k <= |order|
    ensures var r := Passes(cfg, conns, idx, order, passes, k);
            forall i :: 0 <= i < |conns| && GeneValid(cfg, conns[i]) ==> GeneValid(cfg, r[i])
  {
    if k > 0 {
      PassesValid(cfg, conns, idx, order, passes, k - 1);
      assert DrawFits(cfg, |conns|, passes[k - 1]);
    }
  }

  /** A cluster member is visited by exactly one iteration, the one for its own cluster id, so after
      `k` iterations it holds its cluster's draw (when that iteration has run and its coin came up)
      or its old gene. */
  lemma {:induction false} PassesMember(cfg: Config, conns: seq<Connection>, idx: seq<int>, order: seq<int>,
                                        passes: seq<PassDraws>, k: nat, i: int)
    requires |idx| == |conns| && NoDups(order)
    requires PassesFit(cfg, |conns|, order, passes) && k <= |order|
    requires 0 <= i < |conns| && idx[i] >= 0 && idx[i] in order
    ensures var p := IndexOf(order, idx[i]);
            Passes(cfg, conns, idx, order, passes, k)[i] ==
              if p < k && passes[p].coins[i] then Write(cfg, conns[i], passes[p].value) else conns[i]
  {
    if k > 0 {
      PassesMember(cfg, conns, idx, order, passes, k - 1, i);
      var p := IndexOf(order, idx[i]);
      var prev := Passes(cfg, conns, idx, order, passes, k - 1);
      assert DrawFits(cfg, |conns|, passes[k - 1]);
      var r := Pass(cfg, prev, idx, order[k - 1], passes[k - 1]);
      assert r == Passes(cfg, conns, idx, order, passes, k);
      if order[k - 1] == idx[i] {
        assert p == k - 1;
        assert prev[i] == conns[i];
        assert r[i] == if passes[p].coins[i] then Write(cfg, prev[i], passes[p].value) else prev[i];
      } else {
        assert p != k - 1;
        assert r[i] == prev[i];
      }
    }
  }

  /** `PassesMember` for every member at once. */
  lemma PassesMembers(cfg: Config, conns: seq<Connection>, idx: seq<int>, order: seq<int>,
                      passes: seq<PassDraws>, k: nat)
    requires |idx| == |conns| && ListsClusters(order, idx)
    requires PassesFit(cfg, |conns|, order, passes) && k <= |order|
    ensures var r := Passes(cfg, conns, idx, order, passes, k);
            forall i :: 0 <= i < |conns| && idx[i] >= 0 ==>
              var p := IndexOf(order, idx[i]);
              r[i] == if p < k && passes[p].coins[i] then Write(cfg, conns[i], passes[p].value) else conns[i]
  {
    forall i | 0 <= i < |conns| && idx[i] >= 0 {
      PassesMember(cfg, conns, idx, order, passes, k, i);
    }
  }

  /** An outlier only changes in an outlier iteration that turned up its coin, and then it holds that
      iteration's own draw for it: the draw of the last such iteration. */
  lemma {:induction false} PassesOutliers(cfg: Config, conns: seq<Connection>, idx: seq<int>, order: seq<int>,
                                          passes: seq<PassDraws>, k: nat)
    requires |idx| == |conns| && PassesFit(cfg, |conns|, order, passes) && k <= |order|
    ensures var r := Passes(cfg, conns, idx, order, passes, k);
            forall i :: 0 <= i < |conns| && idx[i] < 0 && r[i] != conns[i] ==>
              exists p :: && 0 <= p < k && order[p] < 0 && passes[p].coins[i]
                          && r[i] == Write(cfg, conns[i], passes[p].outlierValues[i])
                          && forall q :: p < q < k && order[q] < 0 ==> !passes[q].coins[i]
  {
    if k > 0 {
      PassesOutliers(cfg, conns, idx, order, passes, k - 1);
      var prev := Passes(cfg, conns, idx, order, passes, k - 1);
      var r := Passes(cfg, conns, idx, order, passes, k);
      assert DrawFits(cfg, |conns|, passes[k - 1]);
      forall i | 0 <= i < |conns| && idx[i] < 0 && r[i] != conns[i]
        ensures exists p :: && 0 <= p < k && order[p] < 0 && passes[p].coins[i]
                            && r[i] == Write(cfg, conns[i], passes[p].outlierValues[i])
                            && forall q :: p < q < k && order[q] < 0 ==> !passes[q].coins[i]
      {
        if order[k - 1] < 0 && passes[k - 1].coins[i] {
          assert r[i] == Write(cfg, prev[i], passes[k - 1].outlierValues[i]);
          assert r[i] == Write(cfg, conns[i], passes[k - 1].outlierValues[i]);
        } else {
          assert r[i] == prev[i];
          var p :| && 0 <= p < k - 1 && order[p] < 0 && passes[p].coins[i]
                   && prev[i] == Write(cfg, conns[i], passes[p].outlierValues[i])
                   && forall q :: p < q < k - 1 && order[q] < 0 ==> !passes[q].coins[i];
          assert forall q :: p < q < k && order[q] < 0 ==> !passes[q].coins[i];
        }
      }
    }
  }

  /** An outlier whose coin came up in no outlier iteration so far keeps its gene. */
  lemma {:induction false} OutlierKept(cfg: Config, conns: seq<Connection>, idx: seq<int>, order: seq<int>,
                                       passes: seq<PassDraws>, k: nat, i: int)
    requires |idx| == |conns| && PassesFit(cfg, |conns|, order, passes) && k <= |order|
    requires 0 <= i < |conns| && idx[i] < 0
    requires forall p :: 0 <= p < k && order[p] < 0 ==> !passes[p].coins[i]
    ensures Passes(cfg, conns, idx, order, passes, k)[i] == conns[i]
  {
    if k > 0 {
      OutlierKept(cfg, conns, idx, order, passes, k - 1, i);
      assert DrawFits(cfg, |conns|, passes[k - 1]);
    }
  }

  /** An outlier is redrawn in every outlier iteration whose coin came up for it, so after the last such
      iteration `p` it holds `p`'s own draw for it, whatever happened before. */
  lemma {:induction false} OutlierLastDraw(cfg: Config, conns: seq<Connection>, idx: seq<int>, order: seq<int>,
                                           passes: seq<PassDraws>, k: nat, i: int, p: int)
    requires |idx| == |conns| && PassesFit(cfg, |conns|, order, passes) && k <= |order|
    requires 0 <= i < |conns| && idx[i] < 0
    requires 0 <= p < k && order[p] < 0 && passes[p].coins[i]
    requires forall q :: p < q < k && order[q] < 0 ==> !passes[q].coins[i]
    ensures Passes(cfg, conns, idx, order, passes, k)[i] == Write(cfg, conns[i], passes[p].outlierValues[i])
  {
    assert DrawFits(cfg, |conns|, passes[k - 1]);
    if p < k - 1 {
      OutlierLastDraw(cfg, conns, idx, order, passes, k - 1, i, p);
    }
  }

  /** Both directions after the whole loop, read through the `values` getter: an outlier with no coin up
      keeps its id, and one whose last successful outlier iteration is `p` holds `p`'s draw for it. */
  lemma OutlierValues(cfg: Config, cv: ConnectivityVector, idx: seq<int>, order: seq<int>,
                      passes: seq<PassDraws>)
    requires |idx| == |cv.connections| && PassesFit(cfg, |cv.connections|, order, passes)
    ensures var r := ConnectivityVector(Passes(cfg, cv.connections, idx, order, passes, |order|));
      forall i :: 0 <= i < |idx| && idx[i] < 0 && (forall p :: 0 <= p < |order| && order[p] < 0 ==> !passes[p].coins[i]) ==>
        r.Values()[i] == cv.Values()[i]
    ensures var r := ConnectivityVector(Passes(cfg, cv.connections, idx, order, passes, |order|));
      forall i, p :: && 0 <= i < |idx| && idx[i] < 0 && 0 <= p < |order| && order[p] < 0 && passes[p].coins[i]
                     && (forall q :: p < q < |order| && order[q] < 0 ==> !passes[q].coins[i]) ==>
        r.Values()[i] == Stored(cfg, cv.connections[i].building, passes[p].outlierValues[i])
  {
    var r := ConnectivityVector(Passes(cfg, cv.connections, idx, order, passes, |order|));
    forall i | 0 <= i < |idx| && idx[i] < 0 && (forall p :: 0 <= p < |order| && order[p] < 0 ==> !passes[p].coins[i])
      ensures r.Values()[i] == cv.Values()[i]
    {
      OutlierKept(cfg, cv.connections, idx, order, passes, |order|, i);
    }
    forall i, p | && 0 <= i < |idx| && idx[i] < 0 && 0 <= p < |order| && order[p] < 0 && passes[p].coins[i]
                  && (forall q :: p < q < |order| && order[q] < 0 ==> !passes[q].coins[i])
      ensures r.Values()[i] == Stored(cfg, cv.connections[i].building, passes[p].outlierValues[i])
    {
      OutlierLastDraw(cfg, cv.connections, idx, order, passes, |order|, i, p);
    }
  }

  /** `PassesOutliers` after the whole loop, read through the `values` getter. */
  lemma PassesOutlierValues(cfg: Config, cv: ConnectivityVector, idx: seq<int>, order: seq<int>,
                            passes: seq<PassDraws>)
    requires |idx| == |cv.connections| && PassesFit(cfg, |cv.connections|, order, passes)
    ensures var r := ConnectivityVector(Passes(cfg, cv.connections, idx, order, passes, |order|));
      forall i :: 0 <= i < |idx| && idx[i] < 0 && r.Values()[i] != cv.Values()[i] ==>
        exists p :: && 0 <= p < |order| && order[p] < 0 && passes[p].coins[i]
                    && r.Values()[i] == Stored(cfg, cv.connections[i].building, passes[p].outlierValues[i])
                    && forall q :: p < q < |order| && order[q] < 0 ==> !passes[q].coins[i]
  {
    PassesOutliers(cfg, cv.connections, idx, order, passes, |order|);
    var r := ConnectivityVector(Passes(cfg, cv.connections, idx, order, passes, |order|));
    forall i | 0 <= i < |idx| && idx[i] < 0 && r.Values()[i] != cv.Values()[i]
      ensures exists p :: && 0 <= p < |order| && order[p] < 0 && passes[p].coins[i]
                          && r.Values()[i] == Stored(cfg, cv.connections[i].building, passes[p].outlierValues[i])
                          && forall q :: p < q < |order| && order[q] < 0 ==> !passes[q].coins[i]
    {
      assert r.connections[i] != cv.connections[i];
    }
  }

  /** `PassesMembers` and `PassesValid` after the whole loop, read through the `values` getter. */
  lemma PassesMemberValues(cfg: Config, cv: ConnectivityVector, idx: seq<int>, order: seq<int>,
                           passes: seq<PassDraws>)
    requires |idx| == |cv.connections| && ListsClusters(order, idx)
    requires PassesFit(cfg, |cv.connections|, order, passes)
    ensures var r := ConnectivityVector(Passes(cfg, cv.connections, idx, order, passes, |order|));
      && SameBuildings(r, cv)
      && (Valid(cfg, cv) ==> Valid(cfg, r))
      && (forall i :: 0 <= i < |idx| && idx[i] >= 0 ==>
            var d := passes[IndexOf(order, idx[i])];
            r.Values()[i] == if d.coins[i] then Stored(cfg, cv.connections[i].building, d.value) else cv.Values()[i])
      && (Valid(cfg, cv) ==> forall i :: 0 <= i < |idx| && idx[i] >= 0 && r.Values()[i] != cv.Values()[i] ==>
            r.Values()[i] == passes[IndexOf(order, idx[i])].value)
  {
    PassesMembers(cfg, cv.connections, idx, order, passes, |order|);
    PassesValid(cfg, cv.connections, idx, order, passes, |order|);
  }

  /** `ClusterSwitch` with the cluster index `idx` and the draws passed in. */
  function ClusterSwitch(cfg: Config, cv: ConnectivityVector, idx: seq<int>, order: seq<int>,
                         passes: seq<PassDraws>): (r: ConnectivityVector)
    requires |idx| == |cv.connections| && ListsClusters(order, idx)
    requires PassesFit(cfg, |cv.connections|, order, passes)
    ensures SameBuildings(r, cv)
    ensures Valid(cfg, cv) ==> Valid(cfg, r)
    ensures forall i :: 0 <= i < |idx| && idx[i] >= 0 ==>
      var d := passes[IndexOf(order, idx[i])];
      r.Values()[i] == if d.coins[i] then Stored(cfg, cv.connections[i].building, d.value) else cv.Values()[i]
    ensures forall i :: 0 <= i < |idx| && idx[i] < 0 && r.Values()[i] != cv.Values()[i] ==>
      exists p :: && 0 <= p < |order| && order[p] < 0 && passes[p].coins[i]
                  && r.Values()[i] == Stored(cfg, cv.connections[i].building, passes[p].outlierValues[i])
                  && forall q :: p < q < |order| && order[q] < 0 ==> !passes[q].coins[i]
    ensures forall i :: 0 <= i < |idx| && idx[i] < 0 &&
                        (forall p :: 0 <= p < |order| && order[p] < 0 ==> !passes[p].coins[i]) ==>
      r.Values()[i] == cv.Values()[i]
    ensures forall i, p :: && 0 <= i < |idx| && idx[i] < 0 && 0 <= p < |order| && order[p] < 0 && passes[p].coins[i]
                           && (forall q :: p < q < |order| && order[q] < 0 ==> !passes[q].coins[i]) ==>
      r.Values()[i] == Stored(cfg, cv.connections[i].building, passes[p].outlierValues[i])
    ensures Valid(cfg, cv) ==> forall i :: 0 <= i < |idx| && idx[i] >= 0 && r.Values()[i] != cv.Values()[i] ==>
      r.Values()[i] == passes[IndexOf(order, idx[i])].value
  {
    var conns := Passes(cfg, cv.connections, idx, order, passes, |order|);
    PassesMemberValues(cfg, cv, idx, order, passes);
    PassesOutlierValues(cfg, cv, idx, order, passes);
    OutlierValues(cfg, cv, idx, order, passes);
    ConnectivityVector(conns)
  }

  /** Members of one cluster that changed all took the same value: the cluster's single draw. */
  lemma ClusterSwitchUniform(cfg: Config, cv: ConnectivityVector, idx: seq<int>, order: seq<int>,
                             passes: seq<PassDraws>, i: int, j: int)
    requires |idx| == |cv.connections| && ListsClusters(order, idx)
    requires PassesFit(cfg, |cv.connections|, order, passes) && Valid(cfg, cv)
    requires 0 <= i < |idx| && 0 <= j < |idx| && idx[i] == idx[j] >= 0
    ensures var r := ClusterSwitch(cfg, cv, idx, order, passes).Values();
            r[i] != cv.Values()[i] && r[j] != cv.Values()[j] ==> r[i] == r[j]
  {
  }

  /** The mutation names `mutate` accepts. */
  const Mutations: set<string> := {"ShuffleIndexes", "UniformInteger", "ClusterSwitch"}

  /** The random inputs of one `mutate` call: the values a deap primitive writes (`proposal`), or the
      draws of `ClusterSwitch`. */
  datatype MutationDraws = MutationDraws(proposal: seq<int>, passes: seq<PassDraws>)

  /** A deap primitive (`mutShuffleIndexes`, `mutUniformInt`, `cxOnePoint`, ...) as an opaque step:
      it writes `proposal`, a legal value per position, through `__setitem__`. */
  function ExternalWrite(cfg: Config, cv: ConnectivityVector, proposal: seq<int>): (r: ConnectivityVector)
    requires |proposal| == |cv.connections| && forall i :: 0 <= i < |proposal| ==> InRange(cfg, proposal[i])
    ensures SameBuildings(r, cv)
    ensures forall i :: 0 <= i < |proposal| ==> r.Values()[i] == Stored(cfg, cv.connections[i].building, proposal[i])
    ensures Valid(cfg, cv) ==> Valid(cfg, r)
  {
    assert Writable(cfg, |cv.connections|, proposal, 0, 0, |proposal|);
    ConnectivityVector(WriteRange(cfg, cv.connections, proposal, 0, 0, |proposal|).value)
  }

  /** The inputs each branch of `mutate` needs: a proposal for the deap mutations, the cluster index
      and its draws for `ClusterSwitch`. */
  predicate MutationFits(cfg: Config, cv: ConnectivityVector, name: string, idx: seq<int>, order: seq<int>,
                         draws: MutationDraws)
  {
    && ((name == "ShuffleIndexes" || name == "UniformInteger") ==>
          |draws.proposal| == |cv.connections| &&
          forall i :: 0 <= i < |draws.proposal| ==> InRange(cfg, draws.proposal[i]))
    && (name == "ClusterSwitch" ==>
          |idx| == |cv.connections| && ListsClusters(order, idx) &&
          PassesFit(cfg, |cv.connections|, order, draws.passes))
  }

  /** `mutate` as written: the `ClusterSwitch` branch returns the genome itself, so `mutated_cv[0]` is
      its first network id and calling `reset()` on that int raises. */
  function MutateAsWritten(cfg: Config, cv: ConnectivityVector, name: string, idx: seq<int>, order: seq<int>,
                           draws: MutationDraws): (r: Result<ConnectivityVector, Error>)
    requires MutationFits(cfg, cv, name, idx, order, draws)
    ensures r.Err? <==> name !in Mutations - {"ClusterSwitch"}
    ensures name == "ClusterSwitch" ==> r == Err(NotAGenome)
  {
    if name == "ShuffleIndexes" || name == "UniformInteger" then Ok(Reset(cfg, ExternalWrite(cfg, cv, draws.proposal)))
    else if name == "ClusterSwitch" then
      var _ := ClusterSwitch(cfg, cv, idx, order, draws.passes);
      Err(NotAGenome)
    else Err(UnsupportedMutation(name))
  }

  /** `mutate` with `reset()` applied to the mutated genome in every branch: an unknown name fails before
      anything is changed, every other name yields a canonical genome over the same buildings. */
  function Mutate(cfg: Config, cv: ConnectivityVector, name: string, idx: seq<int>, order: seq<int>,
                  draws: MutationDraws): (r: Result<ConnectivityVector, Error>)
    requires MutationFits(cfg, cv, name, idx, order, draws)
    ensures r.Err? <==> name !in Mutations
    ensures r.Err? ==> r.error == UnsupportedMutation(name)
    ensures r.Ok? ==> SameBuildings(r.value, cv) && Canonical(cfg, r.value.Values())
    ensures r.Ok? && Valid(cfg, cv) ==> Valid(cfg, r.value)
    ensures name == "ClusterSwitch" ==> r == Ok(Reset(cfg, ClusterSwitch(cfg, cv, idx, order, draws.passes)))
  {
    if name == "ShuffleIndexes" || name == "UniformInteger" then Ok(Reset(cfg, ExternalWrite(cfg, cv, draws.proposal)))
    else if name == "ClusterSwitch" then Ok(Reset(cfg, ClusterSwitch(cfg, cv, idx, order, draws.passes)))
    else Err(UnsupportedMutation(name))
  }

  /** The discrepancy: on every input the `ClusterSwitch` branch of the source fails, while the
      corrected dispatcher returns the canonical, reset genome. */
  lemma ClusterSwitchResetDiscrepancy(cfg: Config, cv: ConnectivityVector, idx: seq<int>, order: seq<int>,
                                      draws: MutationDraws)
    requires MutationFits(cfg, cv, "ClusterSwitch", idx, order, draws)
    ensures MutateAsWritten(cfg, cv, "ClusterSwitch", idx, order, draws) == Err(NotAGenome)
    ensures Mutate(cfg, cv, "ClusterSwitch", idx, order, draws).Ok?
    ensures Canonical(cfg, Mutate(cfg, cv, "ClusterSwitch", idx, order, draws).value.Values())
  {
  }
}
