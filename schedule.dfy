/** The power schedules (simple_fuzzer/schedule/): the base `PowerSchedule`
    and its five subclasses, as one class whose `policy` says which subclass
    it is, with the dictionaries the subclasses add as fields.  Energies are
    exact reals and exponents are natural numbers. */
module Schedules {
  import opened Outcomes
  import opened Seeds
  import opened PathIds
  import opened Selection

  /** A value of the schedules' counting dictionaries: a counter is created
      at 1 and only ever incremented. */
  type Count = n: nat | n >= 1 witness 1

  /** `d[k] += 1` on a present key, `d[k] = 1` on a new one. */
  function Bump<K>(m: map<K, Count>, k: K): (r: map<K, Count>)
    ensures r.Keys == m.Keys + {k}
    ensures r[k] == if k in m then m[k] + 1 else 1
    ensures forall j :: j in m && j != k ==> r[j] == m[j]
  {
    m[k := if k in m then m[k] + 1 else 1]
  }

  /** Which subclass of `PowerSchedule` a schedule is. */
  datatype Policy =
    | Uniform                                        // PowerSchedule
    | CoverageSize                                   // CoveragePowerSchedule
    | Age                                            // AgePowerSchedule
    | CrashCount                                     // CrashPowerSchedule
    | PathFrequency(exponent: nat)                   // PathPowerSchedule
    | Level(distance: map<string, int>, exponent: nat) // LevelPowerSchedule

  // ---------------------------------------------------------------------------
  // The energy each policy gives one seed

  /** CoveragePowerSchedule: the number of covered locations, zero exactly
      for a seed that covered nothing. */
  function CoverageEnergy(coverage: set<Location>): (e: real)
    ensures e >= 0.0 && e == e.Floor as real
    ensures e == 0.0 <==> coverage == {}
  {
    |coverage| as real
  }

  /** Energies that are all zero sum to zero, so `normalized_energy` fails
      its assert on them: a population whose seeds all covered nothing
      cannot be chosen from under the coverage schedule. */
  lemma {:induction false} ZeroEnergiesFailNormalisation(energy: seq<real>)
    requires forall i :: 0 <= i < |energy| ==> energy[i] == 0.0
    ensures Sum(energy) == 0.0
    ensures Normalized(energy) == Err(AssertionError)
  {
    if energy != [] {
      ZeroEnergiesFailNormalisation(energy[1..]);
    }
  }

  /** AgePowerSchedule: `1 / age`. */
  function AgeEnergy(age: Count): (e: real)
    ensures 0.0 < e <= 1.0
  {
    1.0 / age as real
  }

  /** An older seed has strictly less energy. */
  lemma AgeEnergyDecreases(younger: Count, older: Count)
    requires younger < older
    ensures AgeEnergy(older) < AgeEnergy(younger)
  {
    var y, o := younger as real, older as real;
    var ey, eo := AgeEnergy(younger), AgeEnergy(older);
    assert eo * o == 1.0 && ey * y == 1.0;
    ScaledOrder(ey, eo, y);
    ScaledOrder(o, y, eo);
  }

  /** The age each seed has after one `assign_energy` of `population` on the
      ages `ages`: the list is walked in order and every occurrence of a seed
      bumps its age. */
  function AgesAfter(ages: map<Seed, Count>, population: seq<Seed>): map<Seed, Count>
    decreases |population|
  {
    if population == [] then ages
    else Bump(AgesAfter(ages, population[..|population| - 1]), population[|population| - 1])
  }

  /** Each call adds to the age of every seed of the population (a new seed
      starting from 0) the number of times the seed occurs in it, so by
      exactly 1 for a seed listed once; keys are never dropped and the ages
      of seeds not in the population are unchanged. */
  lemma {:induction false} AgesAfterCounts(ages: map<Seed, Count>, population: seq<Seed>)
    ensures forall s :: s in ages ==> s in AgesAfter(ages, population)
    ensures forall s :: s in population ==> s in AgesAfter(ages, population)
    ensures forall s :: s in AgesAfter(ages, population) ==> s in ages || s in population
    ensures forall s :: s in ages && s !in population ==> AgesAfter(ages, population)[s] == ages[s]
    ensures forall s :: s in population ==>
      AgesAfter(ages, population)[s] == (if s in ages then ages[s] else 0) + multiset(population)[s]
    decreases |population|
  {
    if population != [] {
      var init, last := population[..|population| - 1], population[|population| - 1];
      assert population == init + [last];
      AgesAfterCounts(ages, init);
      assert forall s :: s in population <==> s in init || s == last;
    }
  }

  lemma AgesAfterSnoc(ages: map<Seed, Count>, seen: seq<Seed>, seed: Seed)
    ensures AgesAfter(ages, seen + [seed]) == Bump(AgesAfter(ages, seen), seed)
  {
    assert (seen + [seed])[..|seen|] == seen;
  }

  /** CrashPowerSchedule: the crash count of the seed's data, 1 without one. */
  function CrashEnergy(counts: map<seq<int>, Count>, data: seq<int>): (e: real)
    ensures e >= 1.0
    ensures data in counts ==> e == counts[data] as real
    ensures data !in counts ==> e == 1.0
  {
    if data in counts then counts[data] as real else 1.0
  }

  /** `b ** n` on naturals. */
  function Pow(b: nat, n: nat): (p: nat)
    ensures b >= 1 ==> p >= 1
  {
    if n == 0 then 1 else b * Pow(b, n - 1)
  }

  /** Scaling by a natural keeps the order of two naturals, by induction
      on the scale. */
  lemma {:induction false} ScaleMonotone(x: nat, y: nat, k: nat)
    requires x <= y
    ensures x * k <= y * k && k * x <= k * y
    decreases k
  {
    if k > 0 {
      ScaleMonotone(x, y, k - 1);
      assert x * k == x * (k - 1) + x && y * k == y * (k - 1) + y;
    }
  }

  lemma {:induction false} PowMonotone(a: nat, b: nat, n: nat)
    requires 1 <= a <= b
    ensures Pow(a, n) <= Pow(b, n)
  {
    if n > 0 {
      PowMonotone(a, b, n - 1);
      var pa, pb := Pow(a, n - 1), Pow(b, n - 1);
      ScaleMonotone(a, b, pa);
      ScaleMonotone(pa, pb, b);
      assert Pow(a, n) == a * pa && Pow(b, n) == b * pb;
    }
  }

  /** PathPowerSchedule: `1 / frequency ** exponent`. */
  function PathEnergy(frequency: Count, exponent: nat): (e: real)
    ensures 0.0 < e <= 1.0
  {
    1.0 / Pow(frequency, exponent) as real
  }

  /** A more frequent path never gets more energy. */
  lemma PathEnergyAntitone(f: Count, g: Count, exponent: nat)
    requires f <= g
    ensures PathEnergy(g, exponent) <= PathEnergy(f, exponent)
  {
    PowMonotone(f, g, exponent);
    DivideAntitone(1.0, Pow(f, exponent) as real, Pow(g, exponent) as real);
  }

  /** Exponent 1 with a path seen 4 times gives 0.25; exponent 0 gives every
      seed energy 1. */
  lemma PathEnergyExamples(f: Count)
    ensures PathEnergy(4, 1) == 0.25
    ensures PathEnergy(f, 0) == 1.0
  {
    assert Pow(4, 1) == 4;
  }

  // ---------------------------------------------------------------------------
  // LevelPowerSchedule's distances

  /** The learned distance of every seed of `population`, in order. */
  function Distances(population: seq<Seed>): (ds: seq<real>)
    reads population
    ensures |ds| == |population|
    ensures forall i :: 0 <= i < |population| ==> ds[i] == population[i].distance
  {
    seq(|population|, i requires 0 <= i < |population| reads population => population[i].distance)
  }

  /** The sum of the distances of `fs`, in no particular order. */
  ghost function SumOver(fs: set<string>, distance: map<string, int>): int
    requires fs <= distance.Keys
    decreases |fs|
  {
    if fs == {} then 0
    else
      var f :| f in fs;
      distance[f] + SumOver(fs - {f}, distance)
  }

  /** The sum does not depend on which element is taken first. */
  lemma {:induction false} SumOverRemove(fs: set<string>, distance: map<string, int>, g: string)
    requires fs <= distance.Keys && g in fs
    ensures SumOver(fs, distance) == distance[g] + SumOver(fs - {g}, distance)
    decreases |fs|
  {
    var f :| f in fs && SumOver(fs, distance) == distance[f] + SumOver(fs - {f}, distance);
    if f != g {
      SumOverRemove(fs - {f}, distance, g);
      SumOverRemove(fs - {g}, distance, f);
      assert fs - {f} - {g} == fs - {g} - {f};
    }
  }

  lemma SumOverAdd(known: set<string>, distance: map<string, int>, f: string)
    requires known <= distance.Keys && f in distance && f !in known
    ensures SumOver(known + {f}, distance) == SumOver(known, distance) + distance[f]
    ensures |known + {f}| == |known| + 1
  {
    SumOverRemove(known + {f}, distance, f);
    assert known + {f} - {f} == known;
  }

  /** The functions of a coverage set that have a known distance. */
  function KnownFunctions(coverage: set<Location>, distance: map<string, int>): set<string> {
    (set l | l in coverage :: l.0) * distance.Keys
  }

  /** `sum_dist / num_dist` over the known functions of the coverage; with
      none, the division raises `ZeroDivisionError`. */
  ghost function MeanDistance(coverage: set<Location>, distance: map<string, int>): Result<real> {
    var known := KnownFunctions(coverage, distance);
    if known == {} then Err(ZeroDivisionError)
    else Ok(SumOver(known, distance) as real / |known| as real)
  }

  /** `x` times one more is one more `x`. */
  lemma ScaleSucc(x: int, n: nat)
    ensures x * (n + 1) == x * n + x
  {
  }

  /** The distances lie between the least and the greatest one known, so
      their sum lies between those bounds times their number. */
  lemma {:induction false} SumOverBounds(fs: set<string>, distance: map<string, int>, lo: int, hi: int)
    requires fs <= distance.Keys
    requires forall f :: f in fs ==> lo <= distance[f] <= hi
    ensures lo * |fs| <= SumOver(fs, distance) <= hi * |fs|
    decreases |fs|
  {
    if fs != {} {
      var f :| f in fs && SumOver(fs, distance) == distance[f] + SumOver(fs - {f}, distance);
      var rest := fs - {f};
      SumOverBounds(rest, distance, lo, hi);
      var n := |rest|;
      ScaleSucc(lo, n);
      ScaleSucc(hi, n);
    }
  }

  /** The distance a seed ends up with: a cached non-negative distance is
      kept, a negative one is replaced by the mean. */
  ghost function SettledDistance(cached: real, coverage: set<Location>, distance: map<string, int>): Result<real> {
    if cached >= 0.0 then Ok(cached) else MeanDistance(coverage, distance)
  }

  /** The largest distance `min_dist` can start from. */
  const MIN_DIST_START: real := 0xFFFF as real

  /** `min_dist` after the first loop of `assignEnergy`. */
  function LowestDistance(ds: seq<real>): real
    decreases |ds|
  {
    if ds == [] then MIN_DIST_START
    else
      var lo := LowestDistance(ds[..|ds| - 1]);
      if ds[|ds| - 1] < lo then ds[|ds| - 1] else lo
  }

  /** `max_dist` after the first loop of `assignEnergy`. */
  function HighestDistance(ds: seq<real>): real
    decreases |ds|
  {
    if ds == [] then 0.0
    else
      var hi := HighestDistance(ds[..|ds| - 1]);
      if ds[|ds| - 1] > hi then ds[|ds| - 1] else hi
  }

  /** `min_dist` is at most its start value and at most every distance, and
      it is the start value or one of the distances; `max_dist` likewise
      from above, starting at 0. */
  lemma {:induction false} DistanceBounds(ds: seq<real>)
    ensures LowestDistance(ds) <= MIN_DIST_START && HighestDistance(ds) >= 0.0
    ensures forall i :: 0 <= i < |ds| ==> LowestDistance(ds) <= ds[i] <= HighestDistance(ds)
    ensures LowestDistance(ds) == MIN_DIST_START || LowestDistance(ds) in ds
    ensures HighestDistance(ds) == 0.0 || HighestDistance(ds) in ds
    decreases |ds|
  {
    if ds != [] {
      var init := ds[..|ds| - 1];
      DistanceBounds(init);
      assert forall i :: 0 <= i < |init| ==> init[i] == ds[i];
      assert LowestDistance(init) in init ==> LowestDistance(init) in ds;
      assert HighestDistance(init) in init ==> HighestDistance(init) in ds;
    }
  }

  /** The energy of the second loop of `assignEnergy` for a seed at
      distance `d`, with `lo` and `hi` the least and greatest distance. */
  function LevelEnergy(d: real, lo: real, hi: real): real {
    if d == lo then (if lo == hi then 1.0 else hi - lo)
    else (hi - lo) / (d - lo)
  }

  /** Every seed gets positive energy, and one closer to the target never
      gets less than one further away. */
  lemma LevelEnergyPositive(d: real, lo: real, hi: real)
    requires lo <= d <= hi
    ensures LevelEnergy(d, lo, hi) > 0.0
  {
    if d != lo {
      var e := (hi - lo) / (d - lo);
      assert e * (d - lo) == hi - lo;
      ScaledOrder(e, 0.0, d - lo);
    }
  }

  /** `x / q <= x / p` for `x >= 0` and `0 < p <= q`. */
  lemma DivideAntitone(x: real, p: real, q: real)
    requires x >= 0.0 && 0.0 < p <= q
    ensures x / q <= x / p
  {
    var a, b := x / p, x / q;
    assert a * p == x && b * q == x;
    ScaledOrder(b, 0.0, q);
    assert b * q - b * p == b * (q - p);
    assert b * (q - p) >= 0.0;
    ScaledOrder(b, a, p);
  }

  lemma LevelEnergyCloserIsHigher(d1: real, d2: real, lo: real, hi: real)
    requires lo < d1 <= d2 <= hi
    ensures LevelEnergy(d2, lo, hi) <= LevelEnergy(d1, lo, hi)
  {
    DivideAntitone(hi - lo, d1 - lo, d2 - lo);
  }

  // ---------------------------------------------------------------------------
  // The schedule object

  /** `__getFunctions__`: the function names of a coverage set. */
  method GetFunctions(coverage: set<Location>) returns (functions: set<string>)
    ensures functions == set l | l in coverage :: l.0
  {
    functions := {};
    var todo := coverage;
    while todo != {}
      invariant todo <= coverage
      invariant functions == set l | l in coverage - todo :: l.0
      decreases |todo|
    {
      var l :| l in todo;
      assert coverage - (todo - {l}) == (coverage - todo) + {l};
      functions := functions + {l.0};
      todo := todo - {l};
    }
  }

  /** The `sum_dist`/`num_dist` loop: the sum and the number of the
      distances of the functions that have one, in whatever order the set
      yields them. */
  method SumKnownDistances(functions: set<string>, distance: map<string, int>) returns (sum: int, num: nat)
    ensures num == |functions * distance.Keys|
    ensures sum == SumOver(functions * distance.Keys, distance)
  {
    sum, num := 0, 0;
    var todo := functions;
    ghost var known: set<string> := {};
    while todo != {}
      invariant todo <= functions && known <= distance.Keys
      invariant forall g :: g in known <==> g in functions && g !in todo && g in distance
      invariant num == |known| && sum == SumOver(known, distance)
      decreases |todo|
    {
      var f :| f in todo;
      if f in distance {
        SumOverAdd(known, distance, f);
        sum, num := sum + distance[f], num + 1;
        known := known + {f};
      }
      todo := todo - {f};
    }
    assert known == functions * distance.Keys;
  }

  class PowerSchedule {
    const policy: Policy
    /** AgePowerSchedule's `seed_ages`, keyed by seed identity. */
    var seedAges: map<Seed, Count>
    /** CrashPowerSchedule's `crash_counts`, keyed by seed data. */
    var crashCounts: map<seq<int>, Count>
    /** PathPowerSchedule's `path_frequencies`, keyed by path identity. */
    var pathFrequencies: map<PathKey, Count>

    /** Every subclass starts with empty dictionaries. */
    constructor (policy: Policy)
      ensures this.policy == policy
      ensures seedAges == map[] && crashCounts == map[] && pathFrequencies == map[]
    {
      this.policy := policy;
      seedAges := map[];
      crashCounts := map[];
      pathFrequencies := map[];
    }

    // -------------------------------------------------------------------------
    // What each assign_energy leaves behind

    twostate predicate UniformAssigned(population: seq<Seed>)
      reads population
    {
      (forall s :: s in population ==> s.energy == 1.0)
    }

    twostate predicate CoverageAssigned(population: seq<Seed>)
      reads population
    {
      (forall s :: s in population ==> s.energy == CoverageEnergy(s.coverage))
    }

    twostate predicate AgeAssigned(population: seq<Seed>)
      reads this, population
    {
      seedAges == AgesAfter(old(seedAges), population) &&
      (forall s :: s in population ==> s in seedAges && s.energy == AgeEnergy(seedAges[s]))
    }

    twostate predicate CrashAssigned(population: seq<Seed>)
      reads this, population
    {
      (forall s :: s in population ==> s.energy == CrashEnergy(crashCounts, s.data))
    }

    /** Every seed of `seeds` has a known path and the energy of its path. */
    predicate PathEnergiesSet(seeds: seq<Seed>)
      reads this, seeds
      requires policy.PathFrequency?
    {
      forall s :: s in seeds ==>
        PathId(s.coverage) in pathFrequencies &&
        s.energy == PathEnergy(pathFrequencies[PathId(s.coverage)], policy.exponent)
    }

    predicate AllPathsKnown(population: seq<Seed>)
      reads this
    {
      forall s :: s in population ==> PathId(s.coverage) in pathFrequencies
    }

    /** On a missing key the loop stops at the first seed without one: the
        seeds before it have their energies, the others keep theirs. */
    twostate predicate PathAssigned(population: seq<Seed>, new r: Result<()>)
      reads this, population
      requires policy.PathFrequency?
    {
      (r.Ok? <==> AllPathsKnown(population)) &&
      (r.Ok? ==> PathEnergiesSet(population)) &&
      (r.Err? ==>
        r.error == KeyError &&
        exists k :: 0 <= k < |population| &&
          PathId(population[k].coverage) !in pathFrequencies &&
          PathEnergiesSet(population[..k]) &&
          forall s :: s in population[k..] && s !in population[..k] ==> s.energy == old(s.energy))
    }

    /** What `self.assign_energy(population)` leaves behind for this
        schedule's policy. */
    twostate predicate EnergyAssigned(population: seq<Seed>, new r: Result<()>)
      reads this, population
    {
      (match policy
        case Uniform => r.Ok? && UniformAssigned(population)
        case Level(_, _) => r.Ok? && UniformAssigned(population)
        case CoverageSize => r.Ok? && CoverageAssigned(population)
        case Age => r.Ok? && AgeAssigned(population)
        case CrashCount => r.Ok? && CrashAssigned(population)
        case PathFrequency(_) => PathAssigned(population, r)) &&
      (!policy.Age? ==> seedAges == old(seedAges))
    }

    // -------------------------------------------------------------------------
    // assign_energy of each subclass

    /** PowerSchedule.assign_energy. */
    method AssignUniform(population: seq<Seed>)
      modifies population`energy
      ensures UniformAssigned(population)
    {
      for i := 0 to |population|
        invariant forall s :: s in population[..i] ==> s.energy == 1.0
      {
        population[i].energy := 1.0;
      }
    }

    /** CoveragePowerSchedule.assign_energy. */
    method AssignByCoverage(population: seq<Seed>)
      modifies population`energy
      ensures CoverageAssigned(population)
    {
      for i := 0 to |population|
        invariant forall s :: s in population[..i] ==> s.energy == CoverageEnergy(s.coverage)
      {
        population[i].energy := CoverageEnergy(population[i].coverage);
      }
    }

    /** AgePowerSchedule.assign_energy. */
    method AssignByAge(population: seq<Seed>)
      modifies this`seedAges, population`energy
      ensures AgeAssigned(population)
    {
      ghost var ages, seen := seedAges, [];
      for i := 0 to |population|
        invariant seen == population[..i]
        invariant seedAges == AgesAfter(ages, seen)
        invariant forall j :: 0 <= j < i ==>
          population[j] in seedAges && population[j].energy == AgeEnergy(seedAges[population[j]])
      {
        var seed := population[i];
        AgesAfterSnoc(ages, seen, seed);
        seedAges := Bump(seedAges, seed);
        seed.energy := AgeEnergy(seedAges[seed]);
        seen := seen + [seed];
      }
      assert population[..|population|] == population;
    }

    /** CrashPowerSchedule.assign_energy. */
    method AssignByCrashes(population: seq<Seed>)
      modifies population`energy
      ensures CrashAssigned(population)
    {
      for i := 0 to |population|
        invariant forall s :: s in population[..i] ==> s.energy == CrashEnergy(crashCounts, s.data)
      {
        population[i].energy := CrashEnergy(crashCounts, population[i].data);
      }
    }

    /** CrashPowerSchedule.increment_crash_count. */
    method IncrementCrashCount(seed: Seed)
      modifies this`crashCounts
      ensures crashCounts == Bump(old(crashCounts), seed.data)
    {
      crashCounts := Bump(crashCounts, seed.data);
    }

    /** PathPowerSchedule.assign_energy. */
    method AssignByPath(population: seq<Seed>) returns (r: Result<()>)
      requires policy.PathFrequency?
      modifies population`energy
      ensures PathAssigned(population, r)
    {
      for i := 0 to |population|
        invariant AllPathsKnown(population[..i]) && PathEnergiesSet(population[..i])
        invariant forall s :: s in population[i..] && s !in population[..i] ==> s.energy == old(s.energy)
      {
        var seed := population[i];
        var id := PathId(seed.coverage);
        if id !in pathFrequencies {
          return Err(KeyError);
        }
        assert population[..i + 1] == population[..i] + [seed];
        assert forall s :: s in population[i + 1..] ==> s in population[i..];
        seed.energy := PathEnergy(pathFrequencies[id], policy.exponent);
      }
      assert population[..|population|] == population;
      r := Ok(());
    }

    /** `self.assign_energy(population)`: LevelPowerSchedule does not
        override it (its `assignEnergy` is a different name), so it assigns
        the base class's uniform energy. */
    method AssignEnergy(population: seq<Seed>) returns (r: Result<()>)
      modifies this`seedAges, population`energy
      ensures EnergyAssigned(population, r)
    {
      match policy
      case Uniform =>
        AssignUniform(population);
        r := Ok(());
      case Level(_, _) =>
        AssignUniform(population);
        r := Ok(());
      case CoverageSize =>
        AssignByCoverage(population);
        r := Ok(());
      case Age =>
        AssignByAge(population);
        r := Ok(());
      case CrashCount =>
        AssignByCrashes(population);
        r := Ok(());
      case PathFrequency(_) =>
        r := AssignByPath(population);
    }

    // -------------------------------------------------------------------------
    // LevelPowerSchedule.assignEnergy

    /** The mean distance loop of `assignEnergy` for one seed's coverage. */
    method AverageDistance(coverage: set<Location>) returns (r: Result<real>)
      requires policy.Level?
      ensures r == MeanDistance(coverage, policy.distance)
    {
      var functions := GetFunctions(coverage);
      var sum, num := SumKnownDistances(functions, policy.distance);
      if num == 0 {
        return Err(ZeroDivisionError);
      }
      r := Ok(sum as real / num as real);
    }

    /** With `orig` the distances before the first loop of `assignEnergy`
        and `now` the distances at some later point: the seeds before index
        `k` have their settled distances, and the seeds met only from `k` on
        keep their original ones.  This is what the loop leaves behind when
        seed `k` raises. */
    ghost predicate SettledBefore(population: seq<Seed>, orig: seq<real>, now: seq<real>, k: int)
      requires policy.Level?
    {
      && |orig| == |now| == |population| && 0 <= k <= |population|
      && (forall j :: 0 <= j < k ==>
            Ok(now[j]) == SettledDistance(orig[j], population[j].coverage, policy.distance))
      && (forall j :: k <= j < |population| && population[j] !in population[..k] ==> now[j] == orig[j])
    }

    /** Settling seed `i`, and changing no other seed, extends the settled
        prefix by one. */
    lemma {:induction false} SettleStep(population: seq<Seed>, orig: seq<real>, before: seq<real>, after: seq<real>, i: int)
      requires policy.Level? && 0 <= i < |population|
      requires SettledBefore(population, orig, before, i) && |after| == |population|
      requires forall j, k :: 0 <= j < |population| && 0 <= k < |population| && population[j] == population[k] ==>
        orig[j] == orig[k] && before[j] == before[k] && after[j] == after[k]
      requires Ok(after[i]) == SettledDistance(before[i], population[i].coverage, policy.distance)
      requires forall j :: 0 <= j < |population| && population[j] != population[i] ==> after[j] == before[j]
      ensures SettledBefore(population, orig, after, i + 1)
      ensures after[..i] == before[..i]
    {
      var seed := population[i];
      assert population[..i + 1] == population[..i] + [seed];
      if seed in population[..i] {
        var k :| 0 <= k < i && population[k] == seed;
        assert orig[k] == orig[i];
      }
      forall j | 0 <= j < i
        ensures Ok(after[j]) == SettledDistance(orig[j], population[j].coverage, policy.distance)
        ensures after[j] == before[j]
      {
        if population[j] == seed {
          assert orig[j] == orig[i] && before[j] == before[i] && after[j] == after[i];
        }
      }
    }

    /** A seed that cannot be settled now could not be settled before the
        loop either: it is not one of the seeds already settled. */
    lemma {:induction false} SettleStops(population: seq<Seed>, orig: seq<real>, now: seq<real>, i: int)
      requires policy.Level? && 0 <= i < |population|
      requires SettledBefore(population, orig, now, i)
      requires forall j, k :: 0 <= j < |population| && 0 <= k < |population| && population[j] == population[k] ==>
        orig[j] == orig[k] && now[j] == now[k]
      requires SettledDistance(now[i], population[i].coverage, policy.distance).Err?
      ensures population[i] !in population[..i]
      ensures SettledDistance(orig[i], population[i].coverage, policy.distance).Err?
    {
      if population[i] in population[..i] {
        assert false;
      }
    }

    /** One step of the first loop of `assignEnergy`: a seed whose distance
        is still negative gets the mean distance of its coverage, if it has
        one. */
    method SettleOne(seed: Seed) returns (r: Result<real>)
      requires policy.Level?
      modifies seed`distance
      ensures r == SettledDistance(old(seed.distance), seed.coverage, policy.distance)
      ensures seed.distance == if r.Ok? then r.value else old(seed.distance)
    {
      if seed.distance >= 0.0 {
        return Ok(seed.distance);
      }
      r := AverageDistance(seed.coverage);
      if r.Ok? {
        seed.distance := r.value;
      }
    }

    /** The first loop of `assignEnergy`: settle every seed's distance (a
        seed whose distance is still negative and that has no function of
        known distance raises `ZeroDivisionError` and stops the loop) and
        track `min_dist` and `max_dist`.  Energies are not touched. */
    method SettleDistances(population: seq<Seed>) returns (r: Result<(real, real)>)
      requires policy.Level?
      modifies population`distance
      ensures r.Ok? <==> forall s :: s in population ==>
        SettledDistance(old(s.distance), s.coverage, policy.distance).Ok?
      ensures r.Err? ==> r.error == ZeroDivisionError
      ensures r.Err? ==>
        exists k :: 0 <= k < |population| && SettledBefore(population, old(Distances(population)), Distances(population), k) &&
          SettledDistance(old(population[k].distance), population[k].coverage, policy.distance).Err?
      ensures r.Ok? ==> forall s :: s in population ==>
        Ok(s.distance) == SettledDistance(old(s.distance), s.coverage, policy.distance)
      ensures r.Ok? ==> r.value == (LowestDistance(Distances(population)), HighestDistance(Distances(population)))
    {
      ghost var orig := Distances(population);
      var lo, hi := MIN_DIST_START, 0.0;
      ghost var ds: seq<real> := [];
      var i := 0;
      while i < |population|
        invariant 0 <= i <= |population|
        invariant orig == old(Distances(population))
        invariant SettledBefore(population, orig, Distances(population), i)
        invariant ds == Distances(population)[..i]
        invariant lo == LowestDistance(ds) && hi == HighestDistance(ds)
      {
        var seed := population[i];
        ghost var before := Distances(population);
        var d := SettleOne(seed);
        ghost var after := Distances(population);
        if d.Err? {
          SettleStops(population, orig, before, i);
          assert after == before;
          return Err(ZeroDivisionError);
        }
        SettleStep(population, orig, before, after, i);
        assert after[..i + 1] == after[..i] + [seed.distance];
        ds := ds + [seed.distance];
        if seed.distance < lo {
          lo := seed.distance;
        }
        if seed.distance > hi {
          hi := seed.distance;
        }
        i := i + 1;
      }
      assert ds == Distances(population);
      r := Ok((lo, hi));
    }

    /** The second loop of `assignEnergy`: every seed gets the energy of its
        distance relative to `lo` and `hi`. */
    method SetLevelEnergies(population: seq<Seed>, lo: real, hi: real)
      modifies population`energy
      ensures forall s :: s in population ==> s.energy == LevelEnergy(s.distance, lo, hi)
    {
      for i := 0 to |population|
        invariant forall j :: 0 <= j < i ==> population[j].energy == LevelEnergy(population[j].distance, lo, hi)
      {
        population[i].energy := LevelEnergy(population[i].distance, lo, hi);
      }
    }

    /** LevelPowerSchedule.assignEnergy: settle the distances, then give
        every seed the energy of its distance relative to the least and the
        greatest distance, which is positive. */
    method AssignEnergyByDistance(population: seq<Seed>) returns (r: Result<()>)
      requires policy.Level?
      modifies population
      ensures r.Ok? <==> forall s :: s in population ==>
        SettledDistance(old(s.distance), s.coverage, policy.distance).Ok?
      ensures r.Err? ==> r.error == ZeroDivisionError && forall s :: s in population ==> s.energy == old(s.energy)
      ensures r.Err? ==>
        exists k :: 0 <= k < |population| && SettledBefore(population, old(Distances(population)), Distances(population), k) &&
          SettledDistance(old(population[k].distance), population[k].coverage, policy.distance).Err?
      ensures r.Ok? ==> forall s :: s in population ==>
        Ok(s.distance) == SettledDistance(old(s.distance), s.coverage, policy.distance)
      ensures r.Ok? ==> forall s :: s in population ==>
        s.energy == LevelEnergy(s.distance, LowestDistance(Distances(population)), HighestDistance(Distances(population)))
      ensures r.Ok? ==> forall s :: s in population ==> s.energy > 0.0
    {
      var bounds := SettleDistances(population);
      if bounds.Err? {
        return Err(ZeroDivisionError);
      }
      var (lo, hi) := bounds.value;
      ghost var ds := Distances(population);
      SetLevelEnergies(population, lo, hi);
      assert Distances(population) == ds;
      forall s | s in population
        ensures s.energy > 0.0
      {
        var j :| 0 <= j < |population| && population[j] == s;
        DistanceBounds(ds);
        assert lo <= ds[j] <= hi;
        LevelEnergyPositive(s.distance, lo, hi);
      }
      r := Ok(());
    }

    // -------------------------------------------------------------------------
    // choose

    /** The outcome of the `assign_energy` step of a `choose` result: only
        that step raises `KeyError`. */
    static function AssignOutcome(r: Result<(seq<Seed>, Seed)>): Result<()> {
      if r.Err? && r.error == KeyError then Err(KeyError) else Ok(())
    }

    /** PowerSchedule.choose, with `u` the `random()` draw of
        `random.choices`.  The population list shrinks in place in the
        source; here the trimmed list is returned beside the chosen seed.
        Only the energy assignment (`KeyError`) and the normalisation
        (`AssertionError`) can raise: every policy assigns non-negative
        energies, so the weighted draw always finds weight left. */
    method Choose(population: seq<Seed>, u: real) returns (r: Result<(seq<Seed>, Seed)>)
      requires 0.0 <= u < 1.0
      modifies this`seedAges, population`energy
      ensures EnergyAssigned(population, AssignOutcome(r))
      ensures r.Err? ==> r.error == KeyError || r.error == AssertionError
      ensures (r.Err? && r.error == AssertionError) <==>
        AssignOutcome(r).Ok? && Sum(Energies(population)) == 0.0
      ensures r.Ok? ==>
        Normalized(Energies(population)).Ok? &&
        var kept := Evict(population, Normalized(Energies(population)).value, MAX_SEEDS);
        Choices(kept.1, u).Ok? && r.value == (kept.0, kept.0[Choices(kept.1, u).value])
      ensures r.Ok? ==> |r.value.0| <= MAX_SEEDS && r.value.1 in r.value.0
      ensures r.Ok? ==> forall s :: s in r.value.0 ==> s in population
    {
      var assignment := AssignEnergy(population);
      if assignment.Err? {
        return Err(assignment.error);
      }
      var energy := Energies(population);
      assert NonNegative(energy) by {
        forall i | 0 <= i < |energy| ensures energy[i] >= 0.0 {
          assert population[i] in population;
        }
      }
      r := SelectFrom(population, energy, u);
    }
  }
}
