/** The value-level part of `PowerSchedule.choose`
    (simple_fuzzer/schedule/PowerSchedule.py): normalising the energies,
    evicting the lowest-weight seeds down to `MAX_SEEDS`, and the weighted
    draw of `random.choices`.  Energies are exact reals. */
module Selection {
  import opened Outcomes

  /** The population bound of `choose`. */
  const MAX_SEEDS: nat := 100

  /** Python's `sum` of a list of energies. */
  function Sum(xs: seq<real>): real {
    if xs == [] then 0.0 else xs[0] + Sum(xs[1..])
  }

  predicate NonNegative(xs: seq<real>) {
    forall i :: 0 <= i < |xs| ==> xs[i] >= 0.0
  }

  lemma {:induction false} SumOfNonNegative(xs: seq<real>)
    requires NonNegative(xs)
    ensures Sum(xs) >= 0.0
    ensures (exists i :: 0 <= i < |xs| && xs[i] > 0.0) <==> Sum(xs) > 0.0
  {
    if xs != [] {
      SumOfNonNegative(xs[1..]);
      assert forall i :: 1 <= i < |xs| ==> xs[i] == xs[1..][i - 1];
      if exists i :: 0 <= i < |xs| && xs[i] > 0.0 {
        var i :| 0 <= i < |xs| && xs[i] > 0.0;
        if i > 0 {
          assert xs[1..][i - 1] > 0.0;
        }
      }
      if Sum(xs[1..]) > 0.0 {
        var i :| 0 <= i < |xs[1..]| && xs[1..][i] > 0.0;
        assert xs[i + 1] > 0.0;
      }
    }
  }

  // ---------------------------------------------------------------------------
  // normalized_energy

  /** `normalized_energy`: each energy divided by their total, after
      `assert sum_energy != 0`. */
  function Normalized(energy: seq<real>): (r: Result<seq<real>>)
    ensures r.Err? <==> Sum(energy) == 0.0
    ensures r.Err? ==> r.error == AssertionError
    ensures r.Ok? ==> |r.value| == |energy|
    ensures r.Ok? ==> forall i :: 0 <= i < |energy| ==> r.value[i] * Sum(energy) == energy[i]
  {
    var total := Sum(energy);
    if total == 0.0 then Err(AssertionError)
    else Ok(seq(|energy|, i requires 0 <= i < |energy| => energy[i] / total))
  }

  lemma {:induction false} SumDivided(xs: seq<real>, t: real)
    requires t != 0.0
    ensures Sum(seq(|xs|, i requires 0 <= i < |xs| => xs[i] / t)) == Sum(xs) / t
  {
    var ys := seq(|xs|, i requires 0 <= i < |xs| => xs[i] / t);
    if xs != [] {
      var tail := seq(|xs[1..]|, i requires 0 <= i < |xs[1..]| => xs[1..][i] / t);
      assert ys[1..] == tail;
      SumDivided(xs[1..], t);
    }
  }

  /** With a non-zero total the normalised weights sum to 1. */
  lemma NormalizedSumsToOne(energy: seq<real>)
    requires Sum(energy) != 0.0
    ensures Normalized(energy).Ok? && Sum(Normalized(energy).value) == 1.0
  {
    var t := Sum(energy);
    assert Normalized(energy).value == seq(|energy|, i requires 0 <= i < |energy| => energy[i] / t);
    SumDivided(energy, t);
    assert t / t == 1.0;
  }

  /** With a positive total, normalising keeps the order of the energies and
      maps non-negative energies to weights in [0, 1]. */
  lemma NormalizedKeepsOrder(energy: seq<real>, i: int, j: int)
    requires Sum(energy) > 0.0
    requires 0 <= i < |energy| && 0 <= j < |energy|
    ensures Normalized(energy).value[i] <= Normalized(energy).value[j] <==> energy[i] <= energy[j]
  {
    var t := Sum(energy);
    var r := Normalized(energy);
    assert r.value[i] == energy[i] / t;
    assert r.value[j] == energy[j] / t;
    DivisionOrder(energy[i], energy[j], t);
  }

  lemma DivisionOrder(x: real, y: real, t: real)
    requires t > 0.0
    ensures x / t <= y / t <==> x <= y
  {
    var a, b := x / t, y / t;
    assert a * t == x && b * t == y;
    ScaledOrder(a, b, t);
  }

  lemma NormalizedNonNegative(energy: seq<real>)
    requires NonNegative(energy) && Sum(energy) > 0.0
    ensures NonNegative(Normalized(energy).value)
    ensures forall i :: 0 <= i < |energy| ==> Normalized(energy).value[i] <= 1.0
  {
    var t := Sum(energy);
    forall i | 0 <= i < |energy|
      ensures Normalized(energy).value[i] >= 0.0 && Normalized(energy).value[i] <= 1.0
    {
      ElementAtMostSum(energy, i);
      assert Normalized(energy).value[i] == energy[i] / t;
      QuotientInUnit(energy[i], t);
    }
  }

  lemma QuotientInUnit(e: real, t: real)
    requires 0.0 <= e <= t && t > 0.0
    ensures 0.0 <= e / t <= 1.0
  {
    var q := e / t;
    assert q * t == e;
    ScaledOrder(q, 1.0, t);
    ScaledOrder(0.0, q, t);
  }

  lemma ScaledOrder(a: real, b: real, t: real)
    requires t > 0.0
    ensures a * t <= b * t <==> a <= b
  {
    assert b * t - a * t == (b - a) * t;
    if a > b {
      assert (a - b) * t > 0.0;
    }
  }

  lemma {:induction false} ElementAtMostSum(xs: seq<real>, i: int)
    requires NonNegative(xs) && 0 <= i < |xs|
    ensures xs[i] <= Sum(xs)
  {
    assert NonNegative(xs[1..]);
    SumOfNonNegative(xs[1..]);
    if i > 0 {
      ElementAtMostSum(xs[1..], i - 1);
    }
  }

  // ---------------------------------------------------------------------------
  // The eviction loop of choose

  /** `norm_energy.index(min(norm_energy))`: the first index holding the least weight. */
  function FirstMinIndex(w: seq<real>): (k: nat)
    requires |w| > 0
    ensures k < |w|
    ensures forall j :: 0 <= j < |w| ==> w[k] <= w[j]
    ensures forall j :: 0 <= j < k ==> w[j] > w[k]
  {
    if |w| == 1 then 0
    else
      var k := FirstMinIndex(w[1..]);
      assert forall j :: 1 <= j < |w| ==> w[j] == w[1..][j - 1];
      if w[0] <= w[k + 1] then 0 else k + 1
  }

  /** `del xs[k]`. */
  function RemoveAt<T>(xs: seq<T>, k: nat): (r: seq<T>)
    requires k < |xs|
    ensures |r| == |xs| - 1
    ensures forall j :: 0 <= j < k ==> r[j] == xs[j]
    ensures forall j :: k <= j < |r| ==> r[j] == xs[j + 1]
  {
    xs[..k] + xs[k + 1..]
  }

  /** The loop `while len(population) > MAX_SEEDS` with its two `del`s, run on
      the aligned lists `items` and `w` with the bound `bound`. */
  function Evict<T>(items: seq<T>, w: seq<real>, bound: nat): (r: (seq<T>, seq<real>))
    requires |items| == |w|
    ensures |r.0| == |r.1|
    ensures |r.0| == if |items| <= bound then |items| else bound
    decreases |items|
  {
    if |items| <= bound then (items, w)
    else
      var k := FirstMinIndex(w);
      Evict(RemoveAt(items, k), RemoveAt(w, k), bound)
  }

  predicate StrictlyIncreasing(ks: seq<nat>) {
    forall i, j :: 0 <= i < j < |ks| ==> ks[i] < ks[j]
  }

  /** `sub` is the subsequence of `xs` at the increasing indices `kept`. */
  ghost predicate PicksAt<T>(xs: seq<T>, kept: seq<nat>, sub: seq<T>) {
    |sub| == |kept| && StrictlyIncreasing(kept) &&
    forall i :: 0 <= i < |kept| ==> kept[i] < |xs| && sub[i] == xs[kept[i]]
  }

  /** No index outside `kept` weighs more than one inside it, and of two
      equal weights the evicted one comes first. */
  predicate EvictedFirst(w: seq<real>, kept: seq<nat>) {
    (forall i :: 0 <= i < |kept| ==> kept[i] < |w|) &&
    forall j, i :: 0 <= j < |w| && j !in kept && 0 <= i < |kept| ==>
      w[j] <= w[kept[i]] && (w[j] == w[kept[i]] ==> j < kept[i])
  }

  /** The indices of `xs` for the indices `rest` of `RemoveAt(xs, k)`. */
  function Lift(rest: seq<nat>, k: nat): (kept: seq<nat>)
    ensures |kept| == |rest|
    ensures forall i :: 0 <= i < |rest| ==> kept[i] == if rest[i] < k then rest[i] else rest[i] + 1
    ensures StrictlyIncreasing(rest) ==> StrictlyIncreasing(kept)
    ensures k !in kept
  {
    seq(|rest|, i requires 0 <= i < |rest| => if rest[i] < k then rest[i] else rest[i] + 1)
  }

  lemma LiftMembership(rest: seq<nat>, k: nat, j: nat)
    requires j != k
    ensures j in Lift(rest, k) <==> (if j < k then j else j - 1) in rest
  {
    var kept := Lift(rest, k);
    var j' := if j < k then j else j - 1;
    if j' in rest {
      var i :| 0 <= i < |rest| && rest[i] == j';
      assert kept[i] == j;
    }
  }

  lemma LiftPicks<T>(xs: seq<T>, k: nat, rest: seq<nat>, sub: seq<T>)
    requires k < |xs| && PicksAt(RemoveAt(xs, k), rest, sub)
    ensures PicksAt(xs, Lift(rest, k), sub)
  {
  }

  /** Removing the first least weight and then evicting by `rest` evicts
      lighter or earlier seeds first. */
  lemma LiftEvictedFirst(w: seq<real>, rest: seq<nat>)
    requires |w| > 0 && EvictedFirst(RemoveAt(w, FirstMinIndex(w)), rest)
    ensures EvictedFirst(w, Lift(rest, FirstMinIndex(w)))
  {
    var k := FirstMinIndex(w);
    var w' := RemoveAt(w, k);
    var kept := Lift(rest, k);
    forall i | 0 <= i < |kept| ensures kept[i] < |w| && w'[rest[i]] == w[kept[i]] {
      assert rest[i] < |w'|;
    }
    forall j, i | 0 <= j < |w| && j !in kept && 0 <= i < |kept|
      ensures w[j] <= w[kept[i]] && (w[j] == w[kept[i]] ==> j < kept[i])
    {
      if j == k {
        assert kept[i] != k;
      } else {
        LiftMembership(rest, k, j);
        var j' := if j < k then j else j - 1;
        assert j' !in rest && 0 <= j' < |w'|;
        assert w'[j'] == w[j];
        assert w'[j'] <= w'[rest[i]] && (w'[j'] == w'[rest[i]] ==> j' < rest[i]);
      }
    }
  }

  /** What eviction keeps: the seeds and weights left are those of `items`
      and `w` at the same increasing indices `kept` (so in their original
      order, still aligned); every evicted seed weighs no more than every kept
      one, and of two seeds of equal weight the earlier one goes first. */
  lemma {:induction false} EvictionKeeps<T>(items: seq<T>, w: seq<real>, bound: nat) returns (kept: seq<nat>)
    requires |items| == |w|
    ensures PicksAt(items, kept, Evict(items, w, bound).0)
    ensures PicksAt(w, kept, Evict(items, w, bound).1)
    ensures EvictedFirst(w, kept)
    decreases |items|
  {
    if |items| <= bound {
      kept := seq(|items|, i requires 0 <= i < |items| => i);
      forall j | 0 <= j < |w| ensures j in kept {
        assert kept[j] == j;
      }
    } else {
      var k := FirstMinIndex(w);
      var items', w' := RemoveAt(items, k), RemoveAt(w, k);
      var rest := EvictionKeeps(items', w', bound);
      var e := Evict(items', w', bound);
      assert Evict(items, w, bound) == e;
      LiftPicks(items, k, rest, e.0);
      LiftPicks(w, k, rest, e.1);
      LiftEvictedFirst(w, rest);
      kept := Lift(rest, k);
    }
  }

  // ---------------------------------------------------------------------------
  // random.choices(population, weights=norm_energy)[0]

  /** The index `random.choices` returns for the point `x` in [0, total):
      the first index whose cumulative weight exceeds `x`, and the last index
      when no earlier one does.  (CPython bisects the cumulative weights,
      which gives the same index when the weights are non-negative.) */
  function FirstExceeding(w: seq<real>, x: real): (k: nat)
    requires |w| > 0
    ensures k < |w|
  {
    if |w| == 1 || w[0] > x then 0 else 1 + FirstExceeding(w[1..], x - w[0])
  }

  /** Among non-negative weights, a point below the total never lands on a
      seed of weight 0. */
  lemma {:induction false} FirstExceedingHasWeight(w: seq<real>, x: real)
    requires |w| > 0 && NonNegative(w)
    requires 0.0 <= x < Sum(w)
    ensures w[FirstExceeding(w, x)] > 0.0
  {
    if |w| == 1 {
      assert Sum(w) == w[0] + Sum(w[1..]) && w[1..] == [];
    } else if w[0] <= x {
      assert NonNegative(w[1..]);
      FirstExceedingHasWeight(w[1..], x - w[0]);
      assert w[1..][FirstExceeding(w[1..], x - w[0])] == w[1 + FirstExceeding(w[1..], x - w[0])];
    }
  }

  /** The point `random() * total` that `random.choices` looks up. */
  function DrawPoint(u: real, total: real): (x: real)
    requires 0.0 <= u < 1.0 && total > 0.0
    ensures 0.0 <= x < total
  {
    ScaledOrder(u, 1.0, total);
    ScaledOrder(0.0, u, total);
    u * total
  }

  /** `random.choices(population, weights)[0]` as an index, with `u` the
      `random()` draw from [0, 1): an empty list makes `cum_weights[-1]`
      raise `IndexError`, and a total of at most 0 raises `ValueError`. */
  function Choices(weights: seq<real>, u: real): (r: Result<nat>)
    requires 0.0 <= u < 1.0
    ensures r.Err? <==> Sum(weights) <= 0.0
    ensures r.Err? ==> r.error == (if weights == [] then IndexError else ValueError)
    ensures r.Ok? ==> r.value < |weights|
    ensures r.Ok? && NonNegative(weights) ==> weights[r.value] > 0.0
  {
    if weights == [] then Err(IndexError)
    else
      var total := Sum(weights);
      if total <= 0.0 then Err(ValueError)
      else
        var x := DrawPoint(u, total);
        assert NonNegative(weights) ==> weights[FirstExceeding(weights, x)] > 0.0 by {
          if NonNegative(weights) {
            FirstExceedingHasWeight(weights, x);
          }
        }
        Ok(FirstExceeding(weights, x))
  }

  /** The eviction loop of `choose`: while more than `MAX_SEEDS` items
      remain, delete the first one of least weight from both lists. */
  method EvictExcess<T>(items: seq<T>, w: seq<real>) returns (kept: seq<T>, weights: seq<real>)
    requires |items| == |w|
    ensures (kept, weights) == Evict(items, w, MAX_SEEDS)
  {
    kept, weights := items, w;
    while |kept| > MAX_SEEDS
      invariant |kept| == |weights|
      invariant Evict(kept, weights, MAX_SEEDS) == Evict(items, w, MAX_SEEDS)
      decreases |kept|
    {
      var k := FirstMinIndex(weights);
      weights := RemoveAt(weights, k);
      kept := RemoveAt(kept, k);
    }
  }

  /** With non-negative energies of positive sum, the weights that survive
      eviction are non-negative with positive sum, so the weighted draw that
      follows never raises, and the items that survive are items of the list. */
  lemma SurvivorsDrawable<T>(items: seq<T>, energy: seq<real>)
    requires |items| == |energy| && NonNegative(energy) && Sum(energy) != 0.0
    ensures Normalized(energy).Ok?
    ensures NonNegative(Evict(items, Normalized(energy).value, MAX_SEEDS).1)
    ensures Sum(Evict(items, Normalized(energy).value, MAX_SEEDS).1) > 0.0
    ensures forall x :: x in Evict(items, Normalized(energy).value, MAX_SEEDS).0 ==> x in items
  {
    SumOfNonNegative(energy);
    NormalizedNonNegative(energy);
    NormalizedSumsToOne(energy);
    EvictionKeepsWeight(items, Normalized(energy).value, MAX_SEEDS);
    EvictionRetainsItems(items, Normalized(energy).value, MAX_SEEDS);
  }

  /** The part of `choose` after the energies are assigned: normalise them,
      evict down to `MAX_SEEDS` items, and draw one survivor by weight with
      the `random()` draw `u`.  With non-negative energies only the
      normalisation can raise, exactly when the energies sum to zero. */
  method SelectFrom<T>(items: seq<T>, energy: seq<real>, u: real) returns (r: Result<(seq<T>, T)>)
    requires |items| == |energy| && 0.0 <= u < 1.0
    ensures Normalized(energy).Err? ==> r == Err(AssertionError)
    ensures r.Ok? ==>
      Normalized(energy).Ok? &&
      var kept := Evict(items, Normalized(energy).value, MAX_SEEDS);
      Choices(kept.1, u).Ok? && r.value == (kept.0, kept.0[Choices(kept.1, u).value])
    ensures NonNegative(energy) ==> (r.Err? <==> Sum(energy) == 0.0)
    ensures r.Ok? ==> |r.value.0| <= MAX_SEEDS && r.value.1 in r.value.0
    ensures r.Ok? ==> forall x :: x in r.value.0 ==> x in items
  {
    var normalized := Normalized(energy);
    if normalized.Err? {
      return Err(normalized.error);
    }
    var kept, weights := EvictExcess(items, normalized.value);
    var chosen := Choices(weights, u);
    if chosen.Err? {
      assert !NonNegative(energy) by {
        if NonNegative(energy) {
          SurvivorsDrawable(items, energy);
        }
      }
      return Err(chosen.error);
    }
    EvictionRetainsItems(items, normalized.value, MAX_SEEDS);
    r := Ok((kept, kept[chosen.value]));
  }

  /** Eviction only removes: every retained item was an item before. */
  lemma EvictionRetainsItems<T>(items: seq<T>, w: seq<real>, bound: nat)
    requires |items| == |w|
    ensures forall x :: x in Evict(items, w, bound).0 ==> x in items
  {
    var kept := EvictionKeeps(items, w, bound);
    forall x | x in Evict(items, w, bound).0 ensures x in items {
      var i :| 0 <= i < |kept| && Evict(items, w, bound).0[i] == x;
      assert items[kept[i]] == x;
    }
  }

  /** Eviction never removes all the weight: with non-negative weights of
      positive total and room for at least one seed, the kept weights still
      have a positive total, so the draw after eviction cannot raise. */
  lemma EvictionKeepsWeight<T>(items: seq<T>, w: seq<real>, bound: nat)
    requires |items| == |w| && NonNegative(w) && Sum(w) > 0.0 && bound >= 1
    ensures NonNegative(Evict(items, w, bound).1)
    ensures Sum(Evict(items, w, bound).1) > 0.0
  {
    var kept := EvictionKeeps(items, w, bound);
    var w' := Evict(items, w, bound).1;
    SumOfNonNegative(w);
    var j :| 0 <= j < |w| && w[j] > 0.0;
    assert |w| >= 1;
    assert |kept| >= 1;
    if j in kept {
      var i :| 0 <= i < |kept| && kept[i] == j;
      assert w'[i] > 0.0;
    } else {
      assert w'[0] >= w[j];
    }
    SumOfNonNegative(w');
  }
}
