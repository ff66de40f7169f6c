/** The chromosome (class `ConnectivityVector`): one `Connection` per building, in domain order,
    kept in canonical form by its setters. */
module Genome {
  import opened Wrappers
  import opened Seqs
  import opened Connections

  datatype ConnectivityVector = ConnectivityVector(connections: seq<Connection>)
  {
    /** The `values` getter: the network id of every building, in genome order. */
    function Values(): (vs: seq<int>)
      ensures |vs| == |connections|
      ensures forall i :: 0 <= i < |vs| ==> vs[i] == connections[i].network
    {
      seq(|connections|, i requires 0 <= i < |connections| => connections[i].network)
    }
  }

  /** Every gene went through the `Connection` setters, as every gene the source builds does. */
  predicate Valid(cfg: Config, cv: ConnectivityVector)
  {
    forall i :: 0 <= i < |cv.connections| ==> GeneValid(cfg, cv.connections[i])
  }

  /** Two genomes over the same buildings, position by position. */
  predicate SameBuildings(a: ConnectivityVector, b: ConnectivityVector)
  {
    && |a.connections| == |b.connections|
    && forall i :: 0 <= i < |a.connections| ==> a.connections[i].building == b.connections[i].building
  }

  /** `__eq__`: genomes are equal iff their value tuples are equal; the buildings play no part. */
  function Equal(a: ConnectivityVector, b: ConnectivityVector): (r: bool)
    ensures r <==> |a.connections| == |b.connections| &&
                   forall i :: 0 <= i < |a.connections| ==> a.connections[i].network == b.connections[i].network
  {
    a.Values() == b.Values()
  }

  /** `v` is one of the `values_appearing_once`: a legal network id held by exactly one building. */
  predicate Collapses(cfg: Config, vs: seq<int>, v: int)
  {
    InRange(cfg, v) && Count(vs, v) == 1
  }

  /** Canonical form: no network id other than `0` labels exactly one building. */
  predicate Canonical(cfg: Config, vs: seq<int>)
  {
    forall i :: 0 <= i < |vs| && vs[i] != 0 ==> !Collapses(cfg, vs, vs[i])
  }

  /** The singleton collapse both setters perform: a value occurring exactly once becomes `0`. */
  function Canon(cfg: Config, vs: seq<int>): (r: seq<int>)
    ensures |r| == |vs|
    ensures forall i :: 0 <= i < |vs| && r[i] != vs[i] ==> r[i] == 0 && Collapses(cfg, vs, vs[i])
    ensures forall i :: 0 <= i < |vs| && Collapses(cfg, vs, vs[i]) ==> r[i] == 0
  {
    seq(|vs|, i requires 0 <= i < |vs| => if Collapses(cfg, vs, vs[i]) then 0 else vs[i])
  }

  /** For a non-zero id, canonicalisation keeps its count or, for a singleton, removes it. */
  lemma CanonCount(cfg: Config, vs: seq<int>, v: int)
    requires v != 0
    ensures Count(Canon(cfg, vs), v) == if Collapses(cfg, vs, v) then 0 else Count(vs, v)
  {
    var r := Canon(cfg, vs);
    if Collapses(cfg, vs, v) {
      assert v !in r;
      CountAbsent(r, v);
    } else {
      CountSame(r, vs, v);
    }
  }

  /** After the collapse no non-zero id occurs exactly once. */
  lemma CanonIsCanonical(cfg: Config, vs: seq<int>)
    ensures Canonical(cfg, Canon(cfg, vs))
  {
    var r := Canon(cfg, vs);
    forall i | 0 <= i < |r| && r[i] != 0
      ensures !Collapses(cfg, r, r[i])
    {
      CanonCount(cfg, vs, r[i]);
    }
  }

  /** A canonical sequence is left as it is: canonicalisation is idempotent. */
  lemma CanonFixesCanonical(cfg: Config, vs: seq<int>)
    requires Canonical(cfg, vs)
    ensures Canon(cfg, vs) == vs
  {
    var r := Canon(cfg, vs);
    forall i | 0 <= i < |vs|
      ensures r[i] == vs[i]
    {
      if vs[i] != 0 {
        assert !Collapses(cfg, vs, vs[i]);
      }
    }
  }

  /** The collapse on connections, written through the setter with `0`. */
  function CanonConnections(cfg: Config, conns: seq<Connection>): (r: seq<Connection>)
    ensures |r| == |conns|
    ensures forall i :: 0 <= i < |conns| ==> r[i].building == conns[i].building
    ensures ConnectivityVector(r).Values() == Canon(cfg, ConnectivityVector(conns).Values())
  {
    var vs := ConnectivityVector(conns).Values();
    seq(|conns|, i requires 0 <= i < |conns| =>
      if Collapses(cfg, vs, vs[i]) then Write(cfg, conns[i], 0) else conns[i])
  }

  /** `reset()` (the `connections` setter applied to the genome's own list): the same genome with
      every singleton network collapsed. */
  function Reset(cfg: Config, cv: ConnectivityVector): (r: ConnectivityVector)
    ensures |r.connections| == |cv.connections|
    ensures r.Values() == Canon(cfg, cv.Values())
    ensures Canonical(cfg, r.Values())
    ensures SameBuildings(r, cv)
    ensures Valid(cfg, cv) ==> Valid(cfg, r)
  {
    CanonIsCanonical(cfg, cv.Values());
    ConnectivityVector(CanonConnections(cfg, cv.connections))
  }

  /** `reset()` twice gives the genome `reset()` once gives. */
  lemma ResetIdempotent(cfg: Config, cv: ConnectivityVector)
    ensures Reset(cfg, Reset(cfg, cv)) == Reset(cfg, cv)
  {
    var r := Reset(cfg, cv);
    CanonFixesCanonical(cfg, r.Values());
    var rr := Reset(cfg, r);
    assert rr.connections == r.connections by {
      forall i | 0 <= i < |r.connections|
        ensures rr.connections[i] == r.connections[i]
      {
        assert rr.Values()[i] == r.Values()[i];
      }
    }
  }

  /** `ConnectivityVector(connection_list)`: an empty list becomes one default connection; the list is
      canonicalised on assignment. */
  function New(cfg: Config, conns: seq<Connection>): (r: ConnectivityVector)
    ensures |conns| > 0 ==> |r.connections| == |conns| && SameBuildings(r, ConnectivityVector(conns))
    ensures |conns| == 0 ==> r.Values() == [0]
    ensures Canonical(cfg, r.Values())
    ensures r.Values() == Canon(cfg, ConnectivityVector(conns).Values()) || |conns| == 0
  {
    var list := if |conns| == 0 then [Connection("", 0)] else conns;
    Reset(cfg, ConnectivityVector(list))
  }

  /** Writes `vals[k - start]` to position `k`, for every `k` from `k` up to `stop`, through the gene
      setter: the loop of the slice `__setitem__` (and, with `start == 0`, of the `values` setter).
      Positions are Python indices, so a negative `k` writes position `k + |conns|`, which a later
      non-negative `k` may overwrite; the first failure aborts. */
  function WriteRange(cfg: Config, conns: seq<Connection>, vals: seq<int>, start: int, k: int, stop: int)
    : (r: Result<seq<Connection>, Error>)
    requires start <= k
    ensures r.Ok? <==> Writable(cfg, |conns|, vals, start, k, stop)
    ensures r.Ok? ==> |r.value| == |conns|
    ensures r.Ok? ==> forall j :: 0 <= j < |conns| ==>
      r.value[j] == if k <= j < stop then Write(cfg, conns[j], vals[j - start])
                    else if k <= j - |conns| < stop then Write(cfg, conns[j], vals[j - |conns| - start])
                    else conns[j]
    decreases stop - k
  {
    if k >= stop then Ok(conns)
    else if k - start >= |vals| then Err(IndexOutOfRange(k - start))
    else if !(-|conns| <= k < |conns|) then Err(IndexOutOfRange(k))
    else
      var p := if k < 0 then k + |conns| else k;
      match SetNetwork(cfg, conns[p], vals[k - start])
      case Err(e) => Err(e)
      case Ok(c) => WriteRange(cfg, conns[p := c], vals, start, k + 1, stop)
  }

  /** The writes of `WriteRange` from `k` all succeed: indices and values exist, values are accepted. */
  predicate Writable(cfg: Config, n: int, vals: seq<int>, start: int, k: int, stop: int)
  {
    k >= stop || (-n <= k && stop <= n && stop - start <= |vals| &&
                  forall t :: 0 <= t && k - start <= t < stop - start ==> Accepted(cfg, vals[t]))
  }

  /** The `values` setter: rejects a list of another length, collapses singletons in the new list, then
      assigns position by position through the gene setter (so a zero-demand building still gets `0`). */
  function SetValues(cfg: Config, cv: ConnectivityVector, vs: seq<int>): (r: Result<ConnectivityVector, Error>)
    ensures |vs| != |cv.connections| ==> r == Err(LengthMismatch(|cv.connections|, |vs|))
    ensures r.Ok? <==> |vs| == |cv.connections| && forall i :: 0 <= i < |vs| ==> Accepted(cfg, vs[i])
    ensures r.Ok? ==> SameBuildings(r.value, cv)
    ensures r.Ok? ==> forall i :: 0 <= i < |vs| ==>
      r.value.Values()[i] == Stored(cfg, cv.connections[i].building, Canon(cfg, vs)[i])
  {
    if |vs| != |cv.connections| then Err(LengthMismatch(|cv.connections|, |vs|))
    else
      var canon := Canon(cfg, vs);
      assert forall i :: 0 <= i < |vs| ==> (Accepted(cfg, canon[i]) <==> Accepted(cfg, vs[i]));
      match WriteRange(cfg, cv.connections, canon, 0, 0, |vs|)
      case Err(e) => Err(e)
      case Ok(conns) => Ok(ConnectivityVector(conns))
  }

  /** The zero-demand pin can leave a fresh singleton behind the `values` setter, which is why the
      operators call `reset()` afterwards. */
  lemma SetValuesCanLeaveSingleton()
    ensures var cfg := Config(2, ["B1", "B2", "B3"], {"B2"});
            var cv := ConnectivityVector([Connection("B1", 0), Connection("B2", 0), Connection("B3", 0)]);
            var r := SetValues(cfg, cv, [1, 1, 0]);
            r.Ok? && r.value.Values() == [1, 0, 0] && !Canonical(cfg, r.value.Values())
  {
    var cfg := Config(2, ["B1", "B2", "B3"], {"B2"});
    var cv := ConnectivityVector([Connection("B1", 0), Connection("B2", 0), Connection("B3", 0)]);
    var r := SetValues(cfg, cv, [1, 1, 0]);
    assert [1, 1, 0][..2] == [1, 1] && [1, 1][..1] == [1] && [1][..0] == [];
    assert Count([1, 1, 0], 1) == 2 && Count([1, 1, 0], 0) == 1;
    assert Canon(cfg, [1, 1, 0]) == [1, 1, 0];
    assert r.value.Values() == [1, 0, 0];
    assert [1, 0, 0][..2] == [1, 0] && [1, 0][..1] == [1] && [1][..0] == [];
    assert Count([1, 0, 0], 1) == 1;
    assert !Canonical(cfg, r.value.Values()) by {
      assert r.value.Values()[0] == 1;
    }
  }

  /** Python's index normalisation: `i` or `i + n` for `-n <= i < 0`. */
  function Position(n: int, i: int): Option<int>
  {
    if 0 <= i < n then Some(i) else if -n <= i < 0 then Some(i + n) else None
  }

  /** `__getitem__` with an integer: one network id, or `IndexError`. */
  function GetItem(cv: ConnectivityVector, i: int): (r: Result<int, Error>)
    ensures r.Ok? <==> -|cv.connections| <= i < |cv.connections|
    ensures r.Err? ==> r.error == IndexOutOfRange(i)
    ensures 0 <= i < |cv.connections| ==> r == Ok(cv.Values()[i])
    ensures -|cv.connections| <= i < 0 ==> r == Ok(cv.Values()[i + |cv.connections|])
  {
    match Position(|cv.connections|, i)
    case None => Err(IndexOutOfRange(i))
    case Some(p) => Ok(cv.connections[p].network)
  }

  /** `__setitem__` with an integer: one position through the gene setter; no canonicalisation. */
  function SetItem(cfg: Config, cv: ConnectivityVector, i: int, v: int): (r: Result<ConnectivityVector, Error>)
    ensures r.Ok? <==> -|cv.connections| <= i < |cv.connections| && Accepted(cfg, v)
    ensures !(-|cv.connections| <= i < |cv.connections|) ==> r == Err(IndexOutOfRange(i))
    ensures r.Ok? ==> SameBuildings(r.value, cv)
    ensures r.Ok? ==> forall j :: 0 <= j < |cv.connections| && Position(|cv.connections|, i) != Some(j) ==>
      r.value.connections[j] == cv.connections[j]
    ensures r.Ok? && Valid(cfg, cv) ==> Valid(cfg, r.value)
  {
    match Position(|cv.connections|, i)
    case None => Err(IndexOutOfRange(i))
    case Some(p) =>
      match SetNetwork(cfg, cv.connections[p], v)
      case Err(e) => Err(e)
      case Ok(c) => Ok(ConnectivityVector(cv.connections[p := c]))
  }

  /** Reading back a written position gives the stored value (the assigned one unless pinned). */
  lemma SetItemGetItem(cfg: Config, cv: ConnectivityVector, i: int, v: int)
    requires -|cv.connections| <= i < |cv.connections| && Accepted(cfg, v)
    ensures SetItem(cfg, cv, i, v).Ok?
    ensures var p := Position(|cv.connections|, i).value;
            GetItem(SetItem(cfg, cv, i, v).value, i) == Ok(Stored(cfg, cv.connections[p].building, v))
  {
  }

  /** A single write can break canonical form, which `reset()` repairs. */
  lemma SetItemBreaksCanonical()
    ensures var cfg := Config(2, ["B1", "B2"], {});
            var cv := ConnectivityVector([Connection("B1", 1), Connection("B2", 1)]);
            && Canonical(cfg, cv.Values())
            && SetItem(cfg, cv, 0, 0).Ok?
            && !Canonical(cfg, SetItem(cfg, cv, 0, 0).value.Values())
            && Reset(cfg, SetItem(cfg, cv, 0, 0).value).Values() == [0, 0]
  {
    var cfg := Config(2, ["B1", "B2"], {});
    var cv := ConnectivityVector([Connection("B1", 1), Connection("B2", 1)]);
    assert cv.Values() == [1, 1];
    assert [1, 1][..1] == [1] && [1][..0] == [];
    assert Count([1, 1], 1) == 2;
    var r := SetItem(cfg, cv, 0, 0).value;
    assert r.Values() == [0, 1];
    assert [0, 1][..1] == [0] && [0][..0] == [];
    assert Count([0, 1], 1) == 1 && Count([0, 1], 0) == 1;
    assert r.Values()[1] == 1;
  }

  /** Python slice bound normalisation for step 1 (`__getitem__` delegates to the list slice). */
  function SliceBound(n: nat, x: Option<int>, default: int): int
  {
    match x
    case None => default
    case Some(v) => if v < 0 then (if v + n < 0 then 0 else v + n) else (if v > n then n else v)
  }

  /** `__getitem__` with a slice of step 1: the values between the normalised bounds. */
  function GetRange(cv: ConnectivityVector, start: Option<int>, stop: Option<int>): (r: seq<int>)
    ensures var n := |cv.connections|;
            var s := SliceBound(n, start, 0);
            var e := SliceBound(n, stop, n);
            && 0 <= s <= n && 0 <= e <= n
            && |r| == (if s < e then e - s else 0)
            && forall k :: 0 <= k < |r| ==> r[k] == cv.Values()[s + k]
  {
    var n := |cv.connections|;
    var s := SliceBound(n, start, 0);
    var e := SliceBound(n, stop, n);
    if s < e then cv.Values()[s..e] else []
  }

  /** The bounds the slice `__setitem__` uses: a falsy start is `0`, a falsy stop is the length
      (so a stop of `0` means the end of the genome). */
  function SetStart(start: Option<int>): int
  {
    if start.Some? && start.value != 0 then start.value else 0
  }

  function SetStop(n: nat, stop: Option<int>): int
  {
    if stop.Some? && stop.value != 0 then stop.value else n
  }

  /** `__setitem__` with a slice, modelled for step 1: positions `range(start, stop)` get
      `value[index - start]` through the gene setter; no canonicalisation. */
  function SetRange(cfg: Config, cv: ConnectivityVector, start: Option<int>, stop: Option<int>, vals: seq<int>)
    : (r: Result<ConnectivityVector, Error>)
    ensures var s := SetStart(start); var e := SetStop(|cv.connections|, stop);
            r.Ok? <==> Writable(cfg, |cv.connections|, vals, s, s, e)
    ensures var n := |cv.connections|; var s := SetStart(start); var e := SetStop(n, stop);
            r.Ok? ==>
              && SameBuildings(r.value, cv)
              && forall j :: 0 <= j < n ==>
                   r.value.connections[j] == if s <= j < e then Write(cfg, cv.connections[j], vals[j - s])
                                             else if s <= j - n < e then Write(cfg, cv.connections[j], vals[j - n - s])
                                             else cv.connections[j]
  {
    var s := SetStart(start);
    match WriteRange(cfg, cv.connections, vals, s, s, SetStop(|cv.connections|, stop))
    case Err(e) => Err(e)
    case Ok(conns) => Ok(ConnectivityVector(conns))
  }

  /** Writing a slice and reading the same slice back gives the written values, pinned to `0` at
      zero-demand buildings. */
  lemma SetRangeGetRange(cfg: Config, cv: ConnectivityVector, s: nat, e: nat, vals: seq<int>)
    requires 0 < e <= |cv.connections| && s <= e
    requires |vals| == e - s && forall k :: 0 <= k < |vals| ==> Accepted(cfg, vals[k])
    ensures SetRange(cfg, cv, Some(s), Some(e), vals).Ok?
    ensures var got := GetRange(SetRange(cfg, cv, Some(s), Some(e), vals).value, Some(s), Some(e));
            |got| == |vals| &&
            forall k :: 0 <= k < |vals| ==> got[k] == Stored(cfg, cv.connections[s + k].building, vals[k])
  {
    var r := SetRange(cfg, cv, Some(s), Some(e), vals);
    assert Writable(cfg, |cv.connections|, vals, s, s, e);
    var got := GetRange(r.value, Some(s), Some(e));
    forall k | 0 <= k < |vals|
      ensures got[k] == Stored(cfg, cv.connections[s + k].building, vals[k])
    {
      assert r.value.connections[s + k] == Write(cfg, cv.connections[s + k], vals[k]);
    }
  }

  /** A negative start is not normalised: `cv[-1:] = [v]` first writes `v` to the last position, then
      moves on to index `0`, asks for `vals[1]` and raises `IndexError`. */
  lemma NegativeStartOverruns(cfg: Config, cv: ConnectivityVector, v: int)
    requires |cv.connections| > 0 && Accepted(cfg, v)
    ensures SetRange(cfg, cv, Some(-1), None, [v]) == Err(IndexOutOfRange(1))
  {
    var n := |cv.connections|;
    var c := Write(cfg, cv.connections[n - 1], v);
    assert WriteRange(cfg, cv.connections, [v], -1, -1, n)
        == WriteRange(cfg, cv.connections[n - 1 := c], [v], -1, 0, n);
  }

  /** The slice assignment with its bounds normalised as `__getitem__` normalises them, so that it
      addresses exactly the positions the same slice reads. */
  function SetSlice(cfg: Config, cv: ConnectivityVector, start: Option<int>, stop: Option<int>, vals: seq<int>)
    : (r: Result<ConnectivityVector, Error>)
    ensures var n := |cv.connections|; var s := SliceBound(n, start, 0); var e := SliceBound(n, stop, n);
            r.Ok? <==> Writable(cfg, n, vals, s, s, e)
    ensures var n := |cv.connections|; var s := SliceBound(n, start, 0); var e := SliceBound(n, stop, n);
            r.Ok? ==>
              && SameBuildings(r.value, cv)
              && forall j :: 0 <= j < n ==>
                   r.value.connections[j] == if s <= j < e then Write(cfg, cv.connections[j], vals[j - s])
                                             else cv.connections[j]
  {
    var n := |cv.connections|;
    var s := SliceBound(n, start, 0);
    match WriteRange(cfg, cv.connections, vals, s, s, SliceBound(n, stop, n))
    case Err(e) => Err(e)
    case Ok(conns) => Ok(ConnectivityVector(conns))
  }

  /** The normalised bounds of a slice and its length. */
  lemma SliceBounds(cv: ConnectivityVector, start: Option<int>, stop: Option<int>)
    ensures var n := |cv.connections|; var s := SliceBound(n, start, 0); var e := SliceBound(n, stop, n);
            0 <= s <= n && 0 <= e <= n && |GetRange(cv, start, stop)| == (if s < e then e - s else 0)
  {
  }

  /** The `k`-th id a slice read returns is the id at the slice's start plus `k`. */
  lemma GetRangeAt(cv: ConnectivityVector, start: Option<int>, stop: Option<int>, k: int)
    requires 0 <= k < |GetRange(cv, start, stop)|
    ensures var s := SliceBound(|cv.connections|, start, 0);
            s + k < |cv.connections| && GetRange(cv, start, stop)[k] == cv.connections[s + k].network
  {
  }

  /** A slice's worth of accepted values is written to exactly the slice's positions. */
  lemma SetSliceWrites(cfg: Config, cv: ConnectivityVector, start: Option<int>, stop: Option<int>, vals: seq<int>)
    requires |vals| == |GetRange(cv, start, stop)| && forall k :: 0 <= k < |vals| ==> Accepted(cfg, vals[k])
    ensures SetSlice(cfg, cv, start, stop, vals).Ok?
    ensures var r := SetSlice(cfg, cv, start, stop, vals).value;
            var s := SliceBound(|cv.connections|, start, 0);
            && s + |vals| <= |cv.connections| == |r.connections|
            && (forall k :: 0 <= k < |vals| ==> r.connections[s + k] == Write(cfg, cv.connections[s + k], vals[k]))
            && (forall j :: 0 <= j < |cv.connections| && !(s <= j < s + |vals|) ==>
                  r.connections[j] == cv.connections[j])
  {
    var n := |cv.connections|;
    var s := SliceBound(n, start, 0);
    var e := SliceBound(n, stop, n);
    SliceBounds(cv, start, stop);
    assert Writable(cfg, n, vals, s, s, e);
  }

  /** For every pair of bounds, negative and missing ones included: writing as many values as the slice
      holds and reading the slice back gives those values, pinned at zero-demand buildings, and every
      position outside the slice keeps its gene. */
  lemma SetSliceGetRange(cfg: Config, cv: ConnectivityVector, start: Option<int>, stop: Option<int>, vals: seq<int>)
    requires |vals| == |GetRange(cv, start, stop)| && forall k :: 0 <= k < |vals| ==> Accepted(cfg, vals[k])
    ensures SetSlice(cfg, cv, start, stop, vals).Ok?
    ensures var r := SetSlice(cfg, cv, start, stop, vals).value;
            var s := SliceBound(|cv.connections|, start, 0);
            var got := GetRange(r, start, stop);
            && |got| == |vals|
            && (forall k :: 0 <= k < |vals| ==> got[k] == Stored(cfg, cv.connections[s + k].building, vals[k]))
            && (forall j :: 0 <= j < |cv.connections| && !(s <= j < s + |vals|) ==>
                  r.connections[j] == cv.connections[j])
  {
    SetSliceWrites(cfg, cv, start, stop, vals);
    SliceBounds(cv, start, stop);
    var r := SetSlice(cfg, cv, start, stop, vals).value;
    SliceBounds(r, start, stop);
    var s := SliceBound(|cv.connections|, start, 0);
    assert s == SliceBound(|r.connections|, start, 0);
    var got := GetRange(r, start, stop);
    forall k | 0 <= k < |vals|
      ensures got[k] == Stored(cfg, cv.connections[s + k].building, vals[k])
    {
      GetRangeAt(r, start, stop, k);
    }
  }

  /** `generate(method)` (the method name is `how`): one connection per known building, in domain order; `"random"` assigns the
      drawn id (`randint(0, maxNetworks)`, passed in as `draws`), any other method assigns `0`. */
  function Generate(cfg: Config, how: string, draws: seq<int>): (r: seq<Connection>)
    requires how == "random" ==>
      |draws| == |cfg.buildings| && forall i :: 0 <= i < |draws| ==> InRange(cfg, draws[i])
    ensures |r| == |cfg.buildings|
    ensures forall i :: 0 <= i < |r| ==> r[i].building == cfg.buildings[i] && GeneValid(cfg, r[i])
    ensures how != "random" ==> forall i :: 0 <= i < |r| ==> r[i].network == 0
    ensures how == "random" ==> forall i :: 0 <= i < |r| ==>
      r[i].network == Stored(cfg, cfg.buildings[i], draws[i])
  {
    seq(|cfg.buildings|, i requires 0 <= i < |cfg.buildings| =>
      var v := if how == "random" then draws[i] else 0;
      NewConnection(cfg, v, cfg.buildings[i]).value)
  }

  /** `iterate list(set(cluster_indexes))`: `order` lists every cluster id of `idx` exactly once,
      in whatever order the set yields. */
  predicate ListsClusters(order: seq<int>, idx: seq<int>)
  {
    && NoDups(order)
    && (forall p :: 0 <= p < |order| ==> order[p] in idx)
    && (forall i :: 0 <= i < |idx| ==> idx[i] in order)
  }
}
