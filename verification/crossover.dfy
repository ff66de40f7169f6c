/** `mate` and the cluster-aware crossovers `ClusterSwap` and `ClusterAlignment`. */
module Crossover {
  import opened Wrappers
  import opened Seqs
  import opened Connections
  import opened Genome
  import Mutation

  /** `select_values_with_probability`: keeps `values[i]` exactly when its coin
      (`random.random() < probability`) came up, preserving order. */
  function SelectWithProbability<T(==)>(values: seq<T>, coins: seq<bool>): (r: seq<T>)
    requires |coins| >= |values|
    ensures |r| <= |values|
    ensures forall i :: 0 <= i < |values| && coins[i] ==> values[i] in r
    ensures forall x :: x in r ==> exists i :: 0 <= i < |values| && coins[i] && values[i] == x
    ensures (forall i :: 0 <= i < |values| ==> coins[i]) ==> r == values
    ensures (forall i :: 0 <= i < |values| ==> !coins[i]) ==> r == []
    decreases |values|
  {
    if |values| == 0 then []
    else (if coins[0] then [values[0]] else []) + SelectWithProbability(values[1..], coins[1..])
  }

  /** Selection distributes over concatenation: the kept values of `a` come first, in their order,
      followed by the kept values of `b`. With one-element pieces this fixes the result position by
      position, so order and multiplicity are kept. */
  lemma {:induction false} SelectWithProbabilityAppend<T>(a: seq<T>, ca: seq<bool>, b: seq<T>, cb: seq<bool>)
    requires |ca| == |a| && |cb| >= |b|
    ensures SelectWithProbability(a + b, ca + cb) == SelectWithProbability(a, ca) + SelectWithProbability(b, cb)
    decreases |a|
  {
    if |a| > 0 {
      assert (a + b)[1..] == a[1..] + b;
      assert (ca + cb)[1..] == ca[1..] + cb;
      SelectWithProbabilityAppend(a[1..], ca[1..], b, cb);
    } else {
      assert a + b == b;
      assert ca + cb == cb;
    }
  }

  /** Exchanges the values of the two genomes at the positions `pick` marks, as the source's
      `cv_1[i], cv_2[i] = cv_2[i], cv_1[i]` does: both old values are read, then each is written into
      the other genome through the gene setter. The source's loops touch each position at most once,
      so the writes are independent of their order. */
  function SwapWhere(cfg: Config, a: ConnectivityVector, b: ConnectivityVector, pick: seq<bool>)
    : (r: (ConnectivityVector, ConnectivityVector))
    requires |a.connections| == |b.connections| == |pick|
    ensures SameBuildings(r.0, a) && SameBuildings(r.1, b)
    ensures Valid(cfg, a) && Valid(cfg, b) ==> Valid(cfg, r.0) && Valid(cfg, r.1)
    ensures Valid(cfg, a) && Valid(cfg, b) && SameBuildings(a, b) ==>
      forall i :: 0 <= i < |pick| ==>
        && r.0.Values()[i] == (if pick[i] then b.Values()[i] else a.Values()[i])
        && r.1.Values()[i] == (if pick[i] then a.Values()[i] else b.Values()[i])
  {
    var n := |pick|;
    (ConnectivityVector(seq(n, i requires 0 <= i < n =>
       if pick[i] then Write(cfg, a.connections[i], b.connections[i].network) else a.connections[i])),
     ConnectivityVector(seq(n, i requires 0 <= i < n =>
       if pick[i] then Write(cfg, b.connections[i], a.connections[i].network) else b.connections[i])))
  }

  /** `ClusterSwap`: one coin per id of `list(set(cluster_indexes))` (iterated as `order`); every
      position whose id was selected is exchanged. Negative (outlier) ids are selected like any other. */
  function ClusterSwap(cfg: Config, a: ConnectivityVector, b: ConnectivityVector, idx: seq<int>,
                       order: seq<int>, coins: seq<bool>): (r: (ConnectivityVector, ConnectivityVector))
    requires Valid(cfg, a) && Valid(cfg, b)
    requires |a.connections| == |b.connections| == |idx|
    requires ListsClusters(order, idx) && |coins| >= |order|
    ensures SameBuildings(r.0, a) && SameBuildings(r.1, b)
    ensures Valid(cfg, r.0) && Valid(cfg, r.1)
    ensures SameBuildings(a, b) ==> forall i :: 0 <= i < |idx| ==>
      var swapped := coins[IndexOf(order, idx[i])];
      && r.0.Values()[i] == (if swapped then b.Values()[i] else a.Values()[i])
      && r.1.Values()[i] == (if swapped then a.Values()[i] else b.Values()[i])
  {
    var selected := SelectWithProbability(order, coins);
    var pick := seq(|idx|, i requires 0 <= i < |idx| => idx[i] in selected);
    assert forall i :: 0 <= i < |idx| ==> (pick[i] <==> coins[IndexOf(order, idx[i])]);
    SwapWhere(cfg, a, b, pick)
  }

  /** Each position keeps its unordered pair of values, and positions of unselected ids are untouched. */
  lemma ClusterSwapKeepsPairs(cfg: Config, a: ConnectivityVector, b: ConnectivityVector, idx: seq<int>,
                              order: seq<int>, coins: seq<bool>, i: int)
    requires Valid(cfg, a) && Valid(cfg, b) && SameBuildings(a, b)
    requires |a.connections| == |idx| && ListsClusters(order, idx) && |coins| >= |order|
    requires 0 <= i < |idx|
    ensures var r := ClusterSwap(cfg, a, b, idx, order, coins);
            || (r.0.Values()[i] == a.Values()[i] && r.1.Values()[i] == b.Values()[i])
            || (r.0.Values()[i] == b.Values()[i] && r.1.Values()[i] == a.Values()[i])
    ensures !coins[IndexOf(order, idx[i])] ==>
            var r := ClusterSwap(cfg, a, b, idx, order, coins);
            r.0.Values()[i] == a.Values()[i] && r.1.Values()[i] == b.Values()[i]
  {
  }

  /** Equal value sequences and equal buildings make equal genomes. */
  lemma SameGenome(x: ConnectivityVector, y: ConnectivityVector)
    requires SameBuildings(x, y) && x.Values() == y.Values()
    ensures x == y
  {
    assert forall i :: 0 <= i < |x.connections| ==> x.Values()[i] == y.Values()[i];
    assert x.connections == y.connections;
  }

  /** Swapping twice with the same selection restores both parents. */
  lemma ClusterSwapInvolution(cfg: Config, a: ConnectivityVector, b: ConnectivityVector, idx: seq<int>,
                              order: seq<int>, coins: seq<bool>)
    requires Valid(cfg, a) && Valid(cfg, b) && SameBuildings(a, b)
    requires |a.connections| == |idx| && ListsClusters(order, idx) && |coins| >= |order|
    ensures var r := ClusterSwap(cfg, a, b, idx, order, coins);
            ClusterSwap(cfg, r.0, r.1, idx, order, coins) == (a, b)
  {
    var r := ClusterSwap(cfg, a, b, idx, order, coins);
    var rr := ClusterSwap(cfg, r.0, r.1, idx, order, coins);
    assert rr.0.Values() == a.Values();
    assert rr.1.Values() == b.Values();
    SameGenome(rr.0, a);
    SameGenome(rr.1, b);
  }

  /** The outlier group is a set member like any cluster id, so it can be swapped as a block. */
  lemma ClusterSwapMovesOutliers()
    ensures var cfg := Config(1, ["B1", "B2"], {});
            var a := ConnectivityVector([Connection("B1", 1), Connection("B2", 1)]);
            var b := ConnectivityVector([Connection("B1", 0), Connection("B2", 0)]);
            ClusterSwap(cfg, a, b, [-1, -1], [-1], [true]).0.Values() == [0, 0]
  {
    var cfg := Config(1, ["B1", "B2"], {});
    var a := ConnectivityVector([Connection("B1", 1), Connection("B2", 1)]);
    var b := ConnectivityVector([Connection("B1", 0), Connection("B2", 0)]);
    assert IndexOf([-1], -1) == 0;
    var r := ClusterSwap(cfg, a, b, [-1, -1], [-1], [true]);
    assert r.0.Values()[0] == 0 && r.0.Values()[1] == 0;
  }

  /** The values of the members of cluster `c`, in position order. */
  function ClusterValues(vs: seq<int>, idx: seq<int>, c: int): (r: seq<int>)
    requires |idx| == |vs|
    ensures |r| <= |vs|
  {
    if |vs| == 0 then []
    else
      var n := |vs| - 1;
      ClusterValues(vs[..n], idx[..n], c) + (if idx[n] == c then [vs[n]] else [])
  }

  /** Every member's value is in the list. */
  lemma {:induction false} ClusterValuesHasMember(vs: seq<int>, idx: seq<int>, c: int, i: int)
    requires |idx| == |vs| && 0 <= i < |vs| && idx[i] == c
    ensures vs[i] in ClusterValues(vs, idx, c)
  {
    var n := |vs| - 1;
    if i < n {
      assert idx[..n][i] == c && vs[..n][i] == vs[i];
      ClusterValuesHasMember(vs[..n], idx[..n], c, i);
    }
  }

  /** Every value in the list belongs to a member of the cluster. */
  lemma {:induction false} ClusterValuesFromMembers(vs: seq<int>, idx: seq<int>, c: int, x: int)
    requires |idx| == |vs| && x in ClusterValues(vs, idx, c)
    ensures exists i :: 0 <= i < |vs| && idx[i] == c && vs[i] == x
  {
    var n := |vs| - 1;
    if x in ClusterValues(vs[..n], idx[..n], c) {
      ClusterValuesFromMembers(vs[..n], idx[..n], c, x);
      var i :| 0 <= i < n && idx[..n][i] == c && vs[..n][i] == x;
      assert idx[i] == c && vs[i] == x;
    } else {
      assert idx[n] == c && vs[n] == x;
    }
  }

  /** The best of the first `k` values by count in `xs` (ties to the smaller value). */
  function Best(xs: seq<int>, k: nat): (m: int)
    requires 0 < k <= |xs|
    ensures exists j :: 0 <= j < k && xs[j] == m
    ensures forall j :: 0 <= j < k ==> Count(xs, xs[j]) <= Count(xs, m)
  {
    if k == 1 then xs[0]
    else
      var b := Best(xs, k - 1);
      var c := xs[k - 1];
      if Count(xs, c) > Count(xs, b) || (Count(xs, c) == Count(xs, b) && c < b) then c else b
  }

  /** `max(set(xs), key=xs.count)`: a value of `xs` with maximal count. Python's tie-break follows set
      iteration order, so only maximality is promised. */
  function Mode(xs: seq<int>): (m: int)
    requires |xs| > 0
    ensures m in xs
    ensures forall j :: 0 <= j < |xs| ==> Count(xs, xs[j]) <= Count(xs, m)
  {
    Best(xs, |xs|)
  }

  /** The mode of the cluster of position `i`. */
  function ClusterMode(vs: seq<int>, idx: seq<int>, i: int): int
    requires |idx| == |vs| && 0 <= i < |vs|
  {
    ClusterValuesHasMember(vs, idx, idx[i], i);
    Mode(ClusterValues(vs, idx, idx[i]))
  }

  /** `_get_most_prevalent_connectivity_values`: per position, the mode of its cluster, or `None` for
      an outlier. */
  function ClusterModes(vs: seq<int>, idx: seq<int>): (r: seq<Option<int>>)
    requires |idx| == |vs|
    ensures |r| == |vs|
    ensures forall i :: 0 <= i < |vs| ==> (r[i].None? <==> idx[i] < 0)
  {
    seq(|vs|, i requires 0 <= i < |vs| =>
      if idx[i] < 0 then None else Some(ClusterMode(vs, idx, i)))
  }

  /** Every member of a cluster gets the same mode; it is the value of some member, and no member's
      value occurs more often among the cluster's values. */
  lemma ClusterModesMaximal(vs: seq<int>, idx: seq<int>, i: int, j: int)
    requires |idx| == |vs| && 0 <= i < |vs| && 0 <= j < |vs| && idx[i] >= 0 && idx[j] == idx[i]
    ensures ClusterModes(vs, idx)[i] == ClusterModes(vs, idx)[j]
    ensures exists k :: 0 <= k < |vs| && idx[k] == idx[i] && vs[k] == ClusterModes(vs, idx)[i].value
    ensures Count(ClusterValues(vs, idx, idx[i]), vs[j]) <= Count(ClusterValues(vs, idx, idx[i]), ClusterModes(vs, idx)[i].value)
  {
    var cvs := ClusterValues(vs, idx, idx[i]);
    ClusterValuesHasMember(vs, idx, idx[i], j);
    var m := Mode(cvs);
    assert ClusterModes(vs, idx)[i] == Some(m);
    var k :| 0 <= k < |cvs| && cvs[k] == vs[j];
    assert Count(cvs, cvs[k]) <= Count(cvs, m);
    ClusterValuesFromMembers(vs, idx, idx[i], m);
  }

  /** The alignment condition: `a` already holds `b`'s cluster mode at `i` and `b` holds `a`'s. An int
      never equals `None`, so outliers never qualify. */
  predicate Swappable(av: seq<int>, bv: seq<int>, ma: seq<Option<int>>, mb: seq<Option<int>>, i: int)
    requires |av| == |bv| == |ma| == |mb| && 0 <= i < |av|
  {
    mb[i] == Some(av[i]) && ma[i] == Some(bv[i])
  }

  /** `swappable_building_indexes` over the first `k` positions, in increasing order. */
  function SwappableIndexes(av: seq<int>, bv: seq<int>, ma: seq<Option<int>>, mb: seq<Option<int>>, k: nat)
    : (r: seq<int>)
    requires |av| == |bv| == |ma| == |mb| && k <= |av|
    ensures |r| <= k
    ensures forall i :: i in r <==> 0 <= i < k && Swappable(av, bv, ma, mb, i)
    ensures forall s :: 0 <= s < |r| ==> 0 <= r[s] < k
    ensures forall s, t :: 0 <= s < t < |r| ==> r[s] < r[t]
  {
    if k == 0 then []
    else SwappableIndexes(av, bv, ma, mb, k - 1) + (if Swappable(av, bv, ma, mb, k - 1) then [k - 1] else [])
  }

  /** A swappable position `i` is listed at rank `|SwappableIndexes(.., i)|`: the number of swappable
      positions before it. That rank is the coin `select_values_with_probability` gives it. */
  lemma {:induction false} SwappableRank(av: seq<int>, bv: seq<int>, ma: seq<Option<int>>, mb: seq<Option<int>>,
                                         k: nat, i: int)
    requires |av| == |bv| == |ma| == |mb| && 0 <= i < k <= |av| && Swappable(av, bv, ma, mb, i)
    ensures var r := SwappableIndexes(av, bv, ma, mb, k);
            var rank := |SwappableIndexes(av, bv, ma, mb, i)|;
            rank < |r| && r[rank] == i
  {
    var rank := |SwappableIndexes(av, bv, ma, mb, i)|;
    if i < k - 1 {
      SwappableRank(av, bv, ma, mb, k - 1, i);
      var prev := SwappableIndexes(av, bv, ma, mb, k - 1);
      assert SwappableIndexes(av, bv, ma, mb, k)[rank] == prev[rank];
    }
  }

  /** In a list without repeats, the element at rank `k` is selected exactly when coin `k` came up. */
  lemma {:induction false} SelectAtRank(values: seq<int>, coins: seq<bool>, k: int)
    requires |coins| >= |values| && NoDups(values) && 0 <= k < |values|
    ensures values[k] in SelectWithProbability(values, coins) <==> coins[k]
    decreases k
  {
    var tail := SelectWithProbability(values[1..], coins[1..]);
    assert SelectWithProbability(values, coins) == (if coins[0] then [values[0]] else []) + tail;
    if k == 0 {
      assert forall j :: 0 <= j < |values[1..]| ==> values[1..][j] != values[0];
    } else {
      assert values[k] != values[0];
      assert NoDups(values[1..]) by {
        forall s, t | 0 <= s < t < |values[1..]| ensures values[1..][s] != values[1..][t] {
          assert values[1..][s] == values[s + 1] && values[1..][t] == values[t + 1];
        }
      }
      SelectAtRank(values[1..], coins[1..], k - 1);
      assert values[1..][k - 1] == values[k];
    }
  }

  /** The selection of `ClusterAlignment`, position by position: position `i` is selected exactly when
      it is swappable and the coin of its rank among the swappable positions came up. */
  lemma AlignmentSelected(av: seq<int>, bv: seq<int>, ma: seq<Option<int>>, mb: seq<Option<int>>, coins: seq<bool>)
    requires |av| == |bv| == |ma| == |mb| && |coins| >= |av|
    ensures var eligible := SwappableIndexes(av, bv, ma, mb, |av|);
      forall i :: 0 <= i < |av| ==>
        (i in SelectWithProbability(eligible, coins) <==>
           Swappable(av, bv, ma, mb, i) && coins[|SwappableIndexes(av, bv, ma, mb, i)|])
  {
    var eligible := SwappableIndexes(av, bv, ma, mb, |av|);
    assert NoDups(eligible);
    forall i | 0 <= i < |av|
      ensures i in SelectWithProbability(eligible, coins) <==>
                Swappable(av, bv, ma, mb, i) && coins[|SwappableIndexes(av, bv, ma, mb, i)|]
    {
      if Swappable(av, bv, ma, mb, i) {
        SwappableRank(av, bv, ma, mb, |av|, i);
        SelectAtRank(eligible, coins, |SwappableIndexes(av, bv, ma, mb, i)|);
      } else {
        assert i !in eligible;
      }
    }
  }

  /** The positions `ClusterAlignment` exchanges: the swappable ones whose coin came up. */
  function AlignmentPick(a: seq<int>, b: seq<int>, idx: seq<int>, coins: seq<bool>): (pick: seq<bool>)
    requires |a| == |b| == |idx| && |coins| >= |idx|
    ensures |pick| == |idx|
    ensures forall i :: 0 <= i < |idx| && pick[i] ==>
      Swappable(a, b, ClusterModes(a, idx), ClusterModes(b, idx), i)
    ensures var ma, mb := ClusterModes(a, idx), ClusterModes(b, idx);
      forall i :: 0 <= i < |idx| ==>
        (pick[i] <==> Swappable(a, b, ma, mb, i) && coins[|SwappableIndexes(a, b, ma, mb, i)|])
  {
    AlignmentSelected(a, b, ClusterModes(a, idx), ClusterModes(b, idx), coins);
    var eligible := SwappableIndexes(a, b, ClusterModes(a, idx), ClusterModes(b, idx), |idx|);
    var selected := SelectWithProbability(eligible, coins);
    seq(|idx|, i requires 0 <= i < |idx| => i in selected)
  }

  /** `ClusterAlignment`: among the positions where each genome holds the other's cluster mode, those
      whose coin came up are exchanged. */
  function ClusterAlignment(cfg: Config, a: ConnectivityVector, b: ConnectivityVector, idx: seq<int>,
                            coins: seq<bool>): (r: (ConnectivityVector, ConnectivityVector))
    requires Valid(cfg, a) && Valid(cfg, b)
    requires |a.connections| == |b.connections| == |idx| && |coins| >= |idx|
    ensures SameBuildings(r.0, a) && SameBuildings(r.1, b)
    ensures Valid(cfg, r.0) && Valid(cfg, r.1)
    ensures SameBuildings(a, b) ==> forall i :: 0 <= i < |idx| ==>
      || (r.0.Values()[i] == a.Values()[i] && r.1.Values()[i] == b.Values()[i])
      || (Swappable(a.Values(), b.Values(), ClusterModes(a.Values(), idx), ClusterModes(b.Values(), idx), i) &&
          r.0.Values()[i] == b.Values()[i] && r.1.Values()[i] == a.Values()[i])
    ensures var av, bv := a.Values(), b.Values();
            var ma, mb := ClusterModes(av, idx), ClusterModes(bv, idx);
      SameBuildings(a, b) ==> forall i :: 0 <= i < |idx| ==>
        if Swappable(av, bv, ma, mb, i) && coins[|SwappableIndexes(av, bv, ma, mb, i)|]
        then r.0.Values()[i] == bv[i] && r.1.Values()[i] == av[i]
        else r.0.Values()[i] == av[i] && r.1.Values()[i] == bv[i]
  {
    SwapWhere(cfg, a, b, AlignmentPick(a.Values(), b.Values(), idx, coins))
  }

  /** What a swapped position looks like: it belongs to a cluster, and each genome now holds its own
      pre-swap cluster mode there. */
  lemma ClusterAlignmentAligns(cfg: Config, a: ConnectivityVector, b: ConnectivityVector, idx: seq<int>,
                               coins: seq<bool>, i: int)
    requires Valid(cfg, a) && Valid(cfg, b) && SameBuildings(a, b)
    requires |a.connections| == |idx| && |coins| >= |idx| && 0 <= i < |idx|
    ensures var r := ClusterAlignment(cfg, a, b, idx, coins);
            (r.0.Values()[i], r.1.Values()[i]) != (a.Values()[i], b.Values()[i]) ==>
              && idx[i] >= 0
              && Some(r.0.Values()[i]) == ClusterModes(a.Values(), idx)[i]
              && Some(r.1.Values()[i]) == ClusterModes(b.Values(), idx)[i]
  {
  }

  /** With every coin up, every swappable position is exchanged. */
  lemma ClusterAlignmentAllCoins(cfg: Config, a: ConnectivityVector, b: ConnectivityVector, idx: seq<int>,
                                 coins: seq<bool>, i: int)
    requires Valid(cfg, a) && Valid(cfg, b) && SameBuildings(a, b)
    requires |a.connections| == |idx| && |coins| >= |idx| && 0 <= i < |idx|
    requires forall k :: 0 <= k < |coins| ==> coins[k]
    requires Swappable(a.Values(), b.Values(), ClusterModes(a.Values(), idx), ClusterModes(b.Values(), idx), i)
    ensures var r := ClusterAlignment(cfg, a, b, idx, coins);
            r.0.Values()[i] == b.Values()[i] && r.1.Values()[i] == a.Values()[i]
  {
    var ma := ClusterModes(a.Values(), idx);
    var mb := ClusterModes(b.Values(), idx);
    var eligible := SwappableIndexes(a.Values(), b.Values(), ma, mb, |idx|);
    assert i in eligible;
    assert i in SelectWithProbability(eligible, coins);
    assert AlignmentPick(a.Values(), b.Values(), idx, coins)[i];
  }

  /** The example of the `ClusterAlignment` docstring, in one three-building cluster: the odd building
      out in each genome holds the other genome's majority, so with its coin up it is exchanged and both
      genomes end up uniform. */
  lemma ClusterAlignmentExample(cfg: Config, a: ConnectivityVector, b: ConnectivityVector)
    requires Valid(cfg, a) && Valid(cfg, b) && SameBuildings(a, b)
    requires a.Values() == [0, 0, 1] && b.Values() == [1, 1, 0]
    ensures var r := ClusterAlignment(cfg, a, b, [0, 0, 0], [true, true, true]);
            && r.0.Values()[0] == 0 && r.0.Values()[1] == 0 && r.0.Values()[2] == 0
            && r.1.Values()[0] == 1 && r.1.Values()[1] == 1 && r.1.Values()[2] == 1
  {
    var idx, coins := [0, 0, 0], [true, true, true];
    var r := ClusterAlignment(cfg, a, b, idx, coins);
    assert r.0.Values()[0] == 0 && r.1.Values()[0] == 1 by {
      ExampleSwappable(a.Values(), b.Values());
      AlignmentKeeps(cfg, a, b, idx, coins, 0);
    }
    assert r.0.Values()[1] == 0 && r.1.Values()[1] == 1 by {
      ExampleSwappable(a.Values(), b.Values());
      AlignmentKeeps(cfg, a, b, idx, coins, 1);
    }
    assert r.0.Values()[2] == 0 && r.1.Values()[2] == 1 by {
      ExampleSwappable(a.Values(), b.Values());
      ClusterAlignmentAllCoins(cfg, a, b, idx, coins, 2);
    }
  }

  /** A position that is not swappable keeps both values. */
  lemma AlignmentKeeps(cfg: Config, a: ConnectivityVector, b: ConnectivityVector, idx: seq<int>,
                       coins: seq<bool>, i: int)
    requires Valid(cfg, a) && Valid(cfg, b) && SameBuildings(a, b)
    requires |a.connections| == |idx| && |coins| >= |idx| && 0 <= i < |idx|
    requires !Swappable(a.Values(), b.Values(), ClusterModes(a.Values(), idx), ClusterModes(b.Values(), idx), i)
    ensures var r := ClusterAlignment(cfg, a, b, idx, coins);
            r.0.Values()[i] == a.Values()[i] && r.1.Values()[i] == b.Values()[i]
  {
  }

  /** Only the odd one out is swappable in the docstring example. */
  lemma ExampleSwappable(av: seq<int>, bv: seq<int>)
    requires av == [0, 0, 1] && bv == [1, 1, 0]
    ensures var ma, mb := ClusterModes(av, [0, 0, 0]), ClusterModes(bv, [0, 0, 0]);
            !Swappable(av, bv, ma, mb, 0) && !Swappable(av, bv, ma, mb, 1) && Swappable(av, bv, ma, mb, 2)
  {
    ExampleModes(av, 0);
    ExampleModes(bv, 1);
  }

  /** Both members that agree make the mode of the whole cluster. */
  lemma ExampleModes(vs: seq<int>, m: int)
    requires |vs| == 3 && vs[0] == m && vs[1] == m && vs[2] != m
    ensures ClusterModes(vs, [0, 0, 0]) == [Some(m), Some(m), Some(m)]
  {
    MajorityMode(vs, m);
  }

  /** A cluster that holds every position keeps every value. */
  lemma {:induction false} OneClusterValues(vs: seq<int>, idx: seq<int>, c: int)
    requires |idx| == |vs| && forall i :: 0 <= i < |idx| ==> idx[i] == c
    ensures ClusterValues(vs, idx, c) == vs
  {
    if |vs| > 0 {
      var n := |vs| - 1;
      assert forall i :: 0 <= i < n ==> idx[..n][i] == idx[i];
      OneClusterValues(vs[..n], idx[..n], c);
      assert idx[n] == c;
      assert ClusterValues(vs, idx, c) == ClusterValues(vs[..n], idx[..n], c) + [vs[n]];
      assert vs[..n] + [vs[n]] == vs;
    }
  }

  /** Counts in a three-value sequence whose first two values agree. */
  lemma MajorityCounts(vs: seq<int>, m: int)
    requires |vs| == 3 && vs[0] == m && vs[1] == m && vs[2] != m
    ensures Count(vs, m) == 2 && Count(vs, vs[2]) == 1
  {
    var o := vs[2];
    assert vs[..2][..1] == vs[..1] == [m] && vs[..1][..0] == [] && vs[..2] == [m, m];
    assert [m][..0] == [] && [m, m][..1] == [m] && o != m;
    assert Count([], o) == 0 && Count([], m) == 0;
    assert Count([m], o) == Count([m][..0], o) + 0;
    assert Count([m], m) == 1 && Count([m], o) == 0;
    assert Count([m, m], m) == 2 && Count([m, m], o) == 0;
  }

  /** In a three-member cluster whose first two members agree, that value is the mode. */
  lemma MajorityMode(vs: seq<int>, m: int)
    requires |vs| == 3 && vs[0] == m && vs[1] == m && vs[2] != m
    ensures ClusterValues(vs, [0, 0, 0], 0) == vs
    ensures Mode(vs) == m
  {
    OneClusterValues(vs, [0, 0, 0], 0);
    MajorityCounts(vs, m);
    var x := Mode(vs);
    assert Count(vs, vs[0]) <= Count(vs, x);
  }

  /** The mate names `mate` accepts. */
  const Crossovers: set<string> := {"OnePoint", "TwoPoint", "Uniform", "ClusterSwap", "ClusterAlignment"}

  /** The random inputs of one `mate` call: the values a deap crossover writes into each genome, or the
      coins of the cluster-aware crossovers. */
  datatype CrossoverDraws = CrossoverDraws(proposalA: seq<int>, proposalB: seq<int>, coins: seq<bool>)

  /** The inputs each branch of `mate` needs. */
  predicate CrossoverFits(cfg: Config, a: ConnectivityVector, b: ConnectivityVector, name: string,
                          idx: seq<int>, order: seq<int>, draws: CrossoverDraws)
  {
    && ((name == "OnePoint" || name == "TwoPoint" || name == "Uniform") ==>
          && |draws.proposalA| == |a.connections| && |draws.proposalB| == |b.connections|
          && (forall i :: 0 <= i < |draws.proposalA| ==> InRange(cfg, draws.proposalA[i]))
          && (forall i :: 0 <= i < |draws.proposalB| ==> InRange(cfg, draws.proposalB[i])))
    && ((name == "ClusterSwap" || name == "ClusterAlignment") ==>
          Valid(cfg, a) && Valid(cfg, b) && |a.connections| == |b.connections| == |idx|)
    && (name == "ClusterSwap" ==> ListsClusters(order, idx) && |draws.coins| >= |order|)
    && (name == "ClusterAlignment" ==> |draws.coins| >= |idx|)
  }

  /** The `reset()` of both recombined genomes at the end of `mate`. */
  function ResetPair(cfg: Config, a: ConnectivityVector, b: ConnectivityVector,
                     s: (ConnectivityVector, ConnectivityVector)): (r: (ConnectivityVector, ConnectivityVector))
    requires SameBuildings(s.0, a) && SameBuildings(s.1, b)
    ensures SameBuildings(r.0, a) && SameBuildings(r.1, b)
    ensures Canonical(cfg, r.0.Values()) && Canonical(cfg, r.1.Values())
    ensures Valid(cfg, s.0) && Valid(cfg, s.1) ==> Valid(cfg, r.0) && Valid(cfg, r.1)
  {
    (Reset(cfg, s.0), Reset(cfg, s.1))
  }

  /** `mate`: an unknown name fails before anything is changed; otherwise both recombined genomes are
      reset to canonical form. */
  function Mate(cfg: Config, a: ConnectivityVector, b: ConnectivityVector, name: string, idx: seq<int>,
                order: seq<int>, draws: CrossoverDraws): (r: Result<(ConnectivityVector, ConnectivityVector), Error>)
    requires CrossoverFits(cfg, a, b, name, idx, order, draws)
    ensures r.Err? <==> name !in Crossovers
    ensures r.Err? ==> r.error == UnsupportedCrossover(name)
    ensures r.Ok? ==> SameBuildings(r.value.0, a) && SameBuildings(r.value.1, b)
    ensures r.Ok? ==> Canonical(cfg, r.value.0.Values()) && Canonical(cfg, r.value.1.Values())
    ensures r.Ok? && Valid(cfg, a) && Valid(cfg, b) ==> Valid(cfg, r.value.0) && Valid(cfg, r.value.1)
    ensures name == "ClusterSwap" ==>
      var s := ClusterSwap(cfg, a, b, idx, order, draws.coins);
      r == Ok((Reset(cfg, s.0), Reset(cfg, s.1)))
    ensures name == "ClusterAlignment" ==>
      var s := ClusterAlignment(cfg, a, b, idx, draws.coins);
      r == Ok((Reset(cfg, s.0), Reset(cfg, s.1)))
  {
    if name == "OnePoint" || name == "TwoPoint" || name == "Uniform" then
      Ok(ResetPair(cfg, a, b, (Mutation.ExternalWrite(cfg, a, draws.proposalA),
                               Mutation.ExternalWrite(cfg, b, draws.proposalB))))
    else if name == "ClusterSwap" then
      Ok(ResetPair(cfg, a, b, ClusterSwap(cfg, a, b, idx, order, draws.coins)))
    else if name == "ClusterAlignment" then
      Ok(ResetPair(cfg, a, b, ClusterAlignment(cfg, a, b, idx, draws.coins)))
    else Err(UnsupportedCrossover(name))
  }
}
