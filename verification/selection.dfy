/** `select`: walks the non-dominated fronts in order, picking each genome once by its key, until the
    population is full. The fronts come from an external non-dominated sort; each front is the list of
    keys of the genomes with a solution in it. */
module Selection {
  import opened Seqs
  import opened Genome
  import opened Encoding

  /** The keys of the genomes, in list order. */
  function KeysOf(inds: seq<ConnectivityVector>): (ks: seq<string>)
    ensures |ks| == |inds| && forall i :: 0 <= i < |inds| ==> ks[i] == Key(inds[i])
  {
    seq(|inds|, i requires 0 <= i < |inds| => Key(inds[i]))
  }

  /** The dictionary comprehension over key/genome pairs: a later pair with the same key replaces an
      earlier one. */
  function IndexBy(keys: seq<string>, inds: seq<ConnectivityVector>): (m: map<string, ConnectivityVector>)
    requires |keys| == |inds|
    ensures forall k :: k in m ==> k in keys
  {
    if |inds| == 0 then map[]
    else
      var n := |inds| - 1;
      IndexBy(keys[..n], inds[..n])[keys[n] := inds[n]]
  }

  /** Every key is in the dictionary. */
  lemma {:induction false} IndexByKeys(keys: seq<string>, inds: seq<ConnectivityVector>, i: int)
    requires |keys| == |inds| && 0 <= i < |inds|
    ensures keys[i] in IndexBy(keys, inds)
  {
    var n := |inds| - 1;
    if i < n {
      assert keys[..n][i] == keys[i];
      IndexByKeys(keys[..n], inds[..n], i);
    }
  }

  /** Every entry is a pair of the input. */
  lemma {:induction false} IndexByValues(keys: seq<string>, inds: seq<ConnectivityVector>, k: string)
    requires |keys| == |inds| && k in IndexBy(keys, inds)
    ensures exists i :: 0 <= i < |inds| && keys[i] == k && inds[i] == IndexBy(keys, inds)[k]
  {
    var n := |inds| - 1;
    if k != keys[n] {
      IndexByValues(keys[..n], inds[..n], k);
      var i :| 0 <= i < n && keys[..n][i] == k && inds[..n][i] == IndexBy(keys[..n], inds[..n])[k];
      assert keys[i] == k && inds[i] == IndexBy(keys, inds)[k];
    }
  }

  /** The last pair with a given key is the one the dictionary keeps. */
  lemma {:induction false} IndexByLastWins(keys: seq<string>, inds: seq<ConnectivityVector>, i: int)
    requires |keys| == |inds| && 0 <= i < |inds|
    requires forall j :: i < j < |inds| ==> keys[j] != keys[i]
    ensures keys[i] in IndexBy(keys, inds) && IndexBy(keys, inds)[keys[i]] == inds[i]
  {
    var n := |inds| - 1;
    if i < n {
      assert forall j :: i < j < n ==> keys[..n][j] == keys[j];
      assert keys[..n][i] == keys[i] && inds[..n][i] == inds[i];
      IndexByLastWins(keys[..n], inds[..n], i);
      assert keys[n] != keys[i];
    }
  }

  /** `individual_dict`: `as_str()` key to genome; a later genome with the same key replaces an
      earlier one. */
  function Index(inds: seq<ConnectivityVector>): (m: map<string, ConnectivityVector>)
    ensures forall k :: k in m ==> Key(m[k]) == k && m[k] in inds
  {
    var keys := KeysOf(inds);
    var m := IndexBy(keys, inds);
    assert forall k :: k in m ==> Key(m[k]) == k && m[k] in inds by {
      forall k | k in m
        ensures Key(m[k]) == k && m[k] in inds
      {
        IndexByValues(keys, inds, k);
      }
    }
    m
  }

  /** Every genome's key is in the dictionary. */
  lemma IndexKeys(inds: seq<ConnectivityVector>, i: int)
    requires 0 <= i < |inds|
    ensures Key(inds[i]) in Index(inds)
  {
    IndexByKeys(KeysOf(inds), inds, i);
  }

  /** For a repeated key, the last genome with that key is kept. */
  lemma IndexLastWins(inds: seq<ConnectivityVector>, i: int)
    requires 0 <= i < |inds|
    requires forall j :: i < j < |inds| ==> Key(inds[j]) != Key(inds[i])
    ensures Key(inds[i]) in Index(inds) && Index(inds)[Key(inds[i])] == inds[i]
  {
    IndexByLastWins(KeysOf(inds), inds, i);
  }

  /** All fronts' keys, front 0 first. */
  function Flatten(fronts: seq<seq<string>>): seq<string>
  {
    if |fronts| == 0 then [] else Flatten(fronts[..|fronts| - 1]) + fronts[|fronts| - 1]
  }

  lemma {:induction false} FlattenAppend(xs: seq<seq<string>>, ys: seq<seq<string>>)
    ensures Flatten(xs + ys) == Flatten(xs) + Flatten(ys)
    decreases |ys|
  {
    if |ys| == 0 {
      assert xs + ys == xs;
    } else {
      var n := |ys| - 1;
      assert (xs + ys)[..|xs + ys| - 1] == xs + ys[..n];
      FlattenAppend(xs, ys[..n]);
    }
  }

  lemma {:induction false} FlattenContains(fronts: seq<seq<string>>, k: string)
    ensures k in Flatten(fronts) <==> exists f :: 0 <= f < |fronts| && k in fronts[f]
  {
    if |fronts| > 0 {
      var n := |fronts| - 1;
      FlattenContains(fronts[..n], k);
      assert forall f :: 0 <= f < n ==> fronts[..n][f] == fronts[f];
    }
  }

  /** The keys the walk picks from `keys`: a key is taken when the population is not yet full, it names
      one of the genomes (`avail`) and it has not been taken already. */
  function Walk(keys: seq<string>, avail: set<string>, size: int): (picked: seq<string>)
    ensures |picked| <= |keys|
    ensures |picked| <= size || picked == []
    ensures NoDups(picked)
    ensures forall k :: k in picked ==> k in avail && k in keys
  {
    if |keys| == 0 then []
    else
      var p := Walk(keys[..|keys| - 1], avail, size);
      var k := keys[|keys| - 1];
      if |p| < size && k in avail && k !in p then p + [k] else p
  }

  /** Once full, the walk takes nothing more: the source's `break`s change nothing. */
  lemma {:induction false} WalkFull(a: seq<string>, b: seq<string>, avail: set<string>, size: int)
    requires |Walk(a, avail, size)| >= size
    ensures Walk(a + b, avail, size) == Walk(a, avail, size)
    decreases |b|
  {
    if |b| == 0 {
      assert a + b == a;
    } else {
      var n := |b| - 1;
      assert (a + b)[..|a + b| - 1] == a + b[..n];
      WalkFull(a, b[..n], avail, size);
    }
  }

  /** Every available key of `a` is picked, unless the population filled up. */
  lemma {:induction false} WalkCovers(a: seq<string>, avail: set<string>, size: int, k: string)
    requires k in a && k in avail
    ensures k in Walk(a, avail, size) || |Walk(a, avail, size)| >= size
  {
    var n := |a| - 1;
    if a[n] != k {
      assert k in a[..n];
      WalkCovers(a[..n], avail, size, k);
      if |Walk(a[..n], avail, size)| >= size {
        assert a[..n] + [a[n]] == a;
        WalkFull(a[..n], [a[n]], avail, size);
      }
    }
  }

  /** Later keys only extend the picks of earlier ones, and a picked key that occurs early was picked
      early. */
  lemma {:induction false} WalkExtends(a: seq<string>, b: seq<string>, avail: set<string>, size: int)
    ensures var p := Walk(a, avail, size);
            var q := Walk(a + b, avail, size);
            |p| <= |q| && q[..|p|] == p
    ensures forall k :: k in Walk(a + b, avail, size) && k in a ==> k in Walk(a, avail, size)
    decreases |b|
  {
    if |b| == 0 {
      assert a + b == a;
    } else {
      var n := |b| - 1;
      assert (a + b)[..|a + b| - 1] == a + b[..n];
      assert (a + b)[|a + b| - 1] == b[n];
      WalkExtends(a, b[..n], avail, size);
      var p := Walk(a, avail, size);
      var q' := Walk(a + b[..n], avail, size);
      var q := Walk(a + b, avail, size);
      if q != q' {
        assert q == q' + [b[n]];
        assert q[..|p|] == q'[..|p|];
        if b[n] in a && b[n] !in p {
          WalkCovers(a, avail, size, b[n]);
          assert false;
        }
      }
    }
  }

  /** Front priority: if genome `x` has a solution in front `f` and the picked genome `y` has none in
      fronts `0..f`, then `x` was picked too, and before `y`. */
  lemma FrontPriority(fronts: seq<seq<string>>, avail: set<string>, size: int, f: int, x: string, y: string)
    requires 0 <= f < |fronts| && x in fronts[f] && x in avail
    requires forall g :: 0 <= g <= f ==> y !in fronts[g]
    requires y in Walk(Flatten(fronts), avail, size)
    ensures var p := Walk(Flatten(fronts), avail, size);
            x in p && IndexOf(p, x) < IndexOf(p, y)
  {
    var head := fronts[..f + 1];
    var tail := fronts[f + 1..];
    assert fronts == head + tail;
    FlattenAppend(head, tail);
    var a := Flatten(head);
    var b := Flatten(tail);
    FlattenContains(head, x);
    assert head[f] == fronts[f];
    FlattenContains(head, y);
    assert y !in a;
    var p := Walk(a, avail, size);
    var q := Walk(a + b, avail, size);
    WalkExtends(a, b, avail, size);
    assert y !in p;
    var t := IndexOf(q, y);
    assert t >= |p|;
    WalkCovers(a, avail, size, x);
    assert x in p;
    var i := IndexOf(p, x);
    assert q[i] == x;
  }

  /** Each genome is picked at its first front: keys picked from front `f` precede keys first seen in
      a later front. */
  lemma FrontsInOrder(fronts: seq<seq<string>>, avail: set<string>, size: int, i: int, t: int, f: int)
    requires var p := Walk(Flatten(fronts), avail, size); 0 <= i < |p| && 0 <= t < |p|
    requires 0 <= f < |fronts|
    requires Walk(Flatten(fronts), avail, size)[i] in fronts[f]
    requires forall g :: 0 <= g <= f ==> Walk(Flatten(fronts), avail, size)[t] !in fronts[g]
    ensures i < t
  {
    var p := Walk(Flatten(fronts), avail, size);
    FrontPriority(fronts, avail, size, f, p[i], p[t]);
  }

  /** Two genomes, one only in front 0 and one only in front 1, and room for one: the first is chosen. */
  lemma SelectsBestFront(kx: string, ky: string)
    requires kx != ky
    ensures Walk(Flatten([[kx], [ky]]), {kx, ky}, 1) == [kx]
  {
    assert [[kx], [ky]][..1] == [[kx]];
    assert [[kx]][..0] == [];
    assert Flatten([[kx]]) == [] + [kx];
    assert Flatten([[kx], [ky]]) == [kx] + [ky];
    assert [kx, ky][..1] == [kx];
    assert [kx][..0] == [];
    assert Walk([kx], {kx, ky}, 1) == [kx];
  }

  /** What the loops of `select` keep: `dict` is `dict0` without the picked keys and the population is
      the genomes of the picked keys. */
  ghost predicate Picking(dict0: map<string, ConnectivityVector>, dict: map<string, ConnectivityVector>,
                          population: seq<ConnectivityVector>, picked: seq<string>)
  {
    && |population| == |picked|
    && (forall i :: 0 <= i < |picked| ==> picked[i] in dict0 && population[i] == dict0[picked[i]])
    && (forall k :: k in dict <==> k in dict0 && k !in picked)
    && (forall k :: k in dict ==> dict[k] == dict0[k])
  }

  /** One step of the walk. */
  lemma WalkStep(a: seq<string>, k: string, avail: set<string>, size: int)
    ensures var p := Walk(a, avail, size);
            Walk(a + [k], avail, size) == if |p| < size && k in avail && k !in p then p + [k] else p
  {
    assert (a + [k])[..|a + [k]| - 1] == a;
  }

  /** `WalkFull` at position `j` of a front. */
  lemma WalkFullAt(done: seq<string>, front: seq<string>, j: int, avail: set<string>, size: int)
    requires 0 <= j <= |front| && |Walk(done + front[..j], avail, size)| >= size
    ensures Walk(done + front, avail, size) == Walk(done + front[..j], avail, size)
  {
    assert done + front == (done + front[..j]) + front[j..];
    WalkFull(done + front[..j], front[j..], avail, size);
  }

  /** `WalkStep` at position `j` of a front. */
  lemma WalkNext(done: seq<string>, front: seq<string>, j: int, avail: set<string>, size: int)
    requires 0 <= j < |front|
    ensures var p := Walk(done + front[..j], avail, size);
            var k := front[j];
            Walk(done + front[..j + 1], avail, size) == if |p| < size && k in avail && k !in p then p + [k] else p
  {
    assert done + front[..j + 1] == (done + front[..j]) + [front[j]];
    WalkStep(done + front[..j], front[j], avail, size);
  }

  /** Taking a key from `dict` keeps `Picking`. */
  lemma PickingTake(dict0: map<string, ConnectivityVector>, dict: map<string, ConnectivityVector>,
                    population: seq<ConnectivityVector>, picked: seq<string>, key: string)
    requires Picking(dict0, dict, population, picked) && key in dict
    ensures Picking(dict0, dict - {key}, population + [dict[key]], picked + [key])
  {
  }

  /** The inner loop of `select` over one front. */
  method PickFront(dict0: map<string, ConnectivityVector>, dict: map<string, ConnectivityVector>,
                   population: seq<ConnectivityVector>, front: seq<string>, size: int,
                   ghost done: seq<string>, ghost picked: seq<string>)
    returns (dict': map<string, ConnectivityVector>, population': seq<ConnectivityVector>,
             ghost picked': seq<string>)
    requires Picking(dict0, dict, population, picked)
    requires picked == Walk(done, dict0.Keys, size)
    ensures Picking(dict0, dict', population', picked')
    ensures picked' == Walk(done + front, dict0.Keys, size)
  {
    dict', population', picked' := dict, population, picked;
    var j := 0;
    assert done + front[..0] == done;
    while j < |front|
      invariant 0 <= j <= |front|
      invariant Picking(dict0, dict', population', picked')
      invariant picked' == Walk(done + front[..j], dict0.Keys, size)
    {
      if |population'| >= size {
        WalkFullAt(done, front, j, dict0.Keys, size);
        return;
      }
      var key := front[j];
      WalkNext(done, front, j, dict0.Keys, size);
      if key in dict' {
        PickingTake(dict0, dict', population', picked', key);
        population' := population' + [dict'[key]];
        picked' := picked' + [key];
        dict' := dict' - {key};
      }
      j := j + 1;
    }
    assert front[..j] == front;
  }

  /** `WalkFull` at front `f`. */
  lemma FlattenFullAt(fronts: seq<seq<string>>, f: int, avail: set<string>, size: int)
    requires 0 <= f <= |fronts| && |Walk(Flatten(fronts[..f]), avail, size)| >= size
    ensures Walk(Flatten(fronts), avail, size) == Walk(Flatten(fronts[..f]), avail, size)
  {
    assert fronts == fronts[..f] + fronts[f..];
    FlattenAppend(fronts[..f], fronts[f..]);
    WalkFull(Flatten(fronts[..f]), Flatten(fronts[f..]), avail, size);
  }

  /** One more front appends its keys. */
  lemma FlattenNext(fronts: seq<seq<string>>, f: int)
    requires 0 <= f < |fronts|
    ensures Flatten(fronts[..f + 1]) == Flatten(fronts[..f]) + fronts[f]
  {
    assert fronts[..f + 1][..f] == fronts[..f];
  }

  /** The picked genomes come from the input list and have distinct keys. */
  lemma PickedGenomes(individuals: seq<ConnectivityVector>, dict0: map<string, ConnectivityVector>,
                      dict: map<string, ConnectivityVector>, population: seq<ConnectivityVector>,
                      picked: seq<string>)
    requires dict0 == Index(individuals)
    requires Picking(dict0, dict, population, picked) && NoDups(picked)
    ensures forall i, j :: 0 <= i < j < |population| ==> Key(population[i]) != Key(population[j])
    ensures forall i :: 0 <= i < |population| ==> population[i] in individuals
  {
    forall i, j | 0 <= i < j < |population|
      ensures Key(population[i]) != Key(population[j])
    {
      assert Key(population[i]) == picked[i] && Key(population[j]) == picked[j];
    }
  }

  /** `select`: the population is the genomes of the keys the walk picks, in pick order. */
  method Select(individuals: seq<ConnectivityVector>, fronts: seq<seq<string>>, size: int)
    returns (population: seq<ConnectivityVector>)
    ensures var picked := Walk(Flatten(fronts), Index(individuals).Keys, size);
            |population| == |picked| &&
            forall i :: 0 <= i < |picked| ==> population[i] == Index(individuals)[picked[i]]
    ensures |population| <= size || population == []
    ensures forall i, j :: 0 <= i < j < |population| ==> Key(population[i]) != Key(population[j])
    ensures forall i :: 0 <= i < |population| ==> population[i] in individuals
  {
    var dict0 := Index(individuals);
    var dict := dict0;
    ghost var picked: seq<string> := [];
    population := [];
    var f := 0;
    while f < |fronts|
      invariant 0 <= f <= |fronts|
      invariant Picking(dict0, dict, population, picked)
      invariant picked == Walk(Flatten(fronts[..f]), dict0.Keys, size)
    {
      if |population| >= size {
        FlattenFullAt(fronts, f, dict0.Keys, size);
        break;
      }
      FlattenNext(fronts, f);
      dict, population, picked := PickFront(dict0, dict, population, fronts[f], size, Flatten(fronts[..f]), picked);
      f := f + 1;
    }
    if f == |fronts| {
      assert fronts[..f] == fronts;
    }
    PickedGenomes(individuals, dict0, dict, population, picked);
  }
}
