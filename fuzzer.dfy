/** The feedback loop of the grey-box fuzzers (simple_fuzzer/fuzzer/):
    `GreyBoxFuzzer` hands out the initial seeds, then mutates seeds the
    power schedule chooses, and admits an input to the population when the
    runner's cumulative coverage differs in size from the coverage seen so
    far.  `PathGreyBoxFuzzer` and `CrashGreyBoxFuzzer` extend `run`; their
    `super()` calls are modelled by holding the `GreyBoxFuzzer` whose state
    they share.

    The runner (the executor and the `Fuzzer` base class are not part of
    this model) becomes an `Execution`: what running the current input
    returned, its outcome, the coverage of that run and the runner's
    cumulative coverage. */
module Fuzzers {
  import opened Outcomes
  import opened Seeds
  import opened Mutator
  import opened PathIds
  import opened Selection
  import opened Schedules

  /** `Runner.PASS`, `Runner.FAIL` and `Runner.UNRESOLVED`. */
  datatype Outcome = Pass | Fail | Unresolved

  /** One run of the runner on the current input: the value it returned
      (as text), its outcome, `runner.coverage()` and `runner.all_coverage`. */
  datatype Execution = Execution(result: Text, outcome: Outcome, coverage: set<Location>, allCoverage: set<Location>)

  // ---------------------------------------------------------------------------
  // Admission

  /** The admission test of `run`: the sizes differ. */
  predicate Admits(covered: set<Location>, all: set<Location>) {
    |covered| != |all|
  }

  /** `covered_line` after the admission block. */
  function CoveredAfter(covered: set<Location>, all: set<Location>): (r: set<Location>)
    ensures covered <= r
    ensures Admits(covered, all) ==> all <= r
  {
    if Admits(covered, all) then covered + all else covered
  }

  lemma {:induction false} SubsetSize(a: set<Location>, b: set<Location>)
    requires a <= b
    ensures |a| <= |b|
    ensures |a| == |b| ==> a == b
    decreases |a|
  {
    if a != {} {
      var x :| x in a;
      SubsetSize(a - {x}, b - {x});
      assert a == (a - {x}) + {x} && b == (b - {x}) + {x};
    }
  }

  /** While the coverage seen so far is part of the runner's cumulative
      coverage, the size test is exactly "the run reached a location not
      seen before", and afterwards the two coverages agree. */
  lemma AdmissionIsNovelty(covered: set<Location>, all: set<Location>)
    requires covered <= all
    ensures Admits(covered, all) <==> all - covered != {}
    ensures CoveredAfter(covered, all) == all
  {
    SubsetSize(covered, all);
    if all - covered == {} {
      forall x | x in all ensures x in covered {
        assert x !in all - covered;
      }
      assert all == covered;
    }
  }

  /** Without that, the size test can miss a new location: with `{A, B}`
      seen and `{A, C}` reported, `C` is new but the sizes agree. */
  lemma SizeTestMissesNewLocation()
    ensures var a, b, c := ("f", 1), ("f", 2), ("g", 1);
      !Admits({a, b}, {a, c}) && c in {a, c} - {a, b}
  {
    var a, b, c := ("f", 1), ("f", 2), ("g", 1);
    assert |{a, b}| == 2 && |{a, c}| == 2;
  }

  // ---------------------------------------------------------------------------
  // Unique crashes

  lemma {:induction false} ValuesAtMostKeys(m: map<Text, Text>)
    ensures |m.Values| <= |m.Keys|
    decreases |m.Keys|
  {
    if m.Keys != {} {
      var k :| k in m.Keys;
      var rest := m - {k};
      ValuesAtMostKeys(rest);
      forall v | v in m.Values ensures v in rest.Values + {m[k]} {
        var j :| j in m && m[j] == v;
        if j != k {
          assert j in rest && rest[j] == v;
        }
      }
      ValueSetSize(m.Values, rest.Values + {m[k]});
    }
  }

  lemma {:induction false} ValueSetSize(a: set<Text>, b: set<Text>)
    requires a <= b
    ensures |a| <= |b|
    decreases |a|
  {
    if a != {} {
      var x :| x in a;
      ValueSetSize(a - {x}, b - {x});
    }
  }

  /** The unique-crash count of `print_stats`: the number of distinct
      results in `crash_map`, which is at most the number of crashing
      inputs and at least one once an input has crashed. */
  function UniqueCrashes(crashMap: map<Text, Text>): (n: nat)
    ensures n <= |crashMap|
    ensures crashMap != map[] ==> n >= 1
  {
    ValuesAtMostKeys(crashMap);
    SomeValue(crashMap);
    |crashMap.Values|
  }

  lemma SomeValue(m: map<Text, Text>)
    ensures m != map[] ==> |m.Values| >= 1
  {
    if m != map[] {
      var k :| k in m;
      assert m[k] in m.Values;
    }
  }

  /** Recording a crash raises the unique-crash count only when its result
      differs from every recorded one, and then by one. */
  lemma CrashCountGrowsOnlyOnNewResult(m: map<Text, Text>, k: Text, v: Text)
    ensures UniqueCrashes(m[k := v]) <= UniqueCrashes(m) + 1
    ensures UniqueCrashes(m[k := v]) > UniqueCrashes(m) ==> v !in m.Values
  {
    var after := m[k := v].Values;
    forall w | w in after ensures w in m.Values + {v} {
      var j :| j in m[k := v] && m[k := v][j] == w;
      if j != k {
        assert m[j] == w;
      }
    }
    ValueSetSize(after, m.Values + {v});
    if v in m.Values {
      assert m.Values + {v} == m.Values;
    }
  }

  /** Two inputs that crash with the same result count once. */
  lemma UniqueCrashesCountsResults(x: Text, y: Text, result: Text)
    requires x != y
    ensures |map[x := result, y := result]| == 2
    ensures UniqueCrashes(map[x := result, y := result]) == 1
  {
    var m := map[x := result, y := result];
    assert m.Keys == {x, y};
    assert m.Values == {result};
  }

  // ---------------------------------------------------------------------------
  // GreyBoxFuzzer

  class GreyBoxFuzzer {
    const seeds: seq<Text>
    const schedule: PowerSchedule
    var seedIndex: nat
    var inp: Text
    var population: seq<Seed>
    var coveredLine: set<Location>
    var crashMap: map<Text, Text>

    /** The state the constructor sets up; `inp` is not set by the source
        before the first `fuzz`, and starts empty here. */
    constructor (seeds: seq<Text>, schedule: PowerSchedule)
      ensures this.seeds == seeds && this.schedule == schedule
      ensures seedIndex == 0 && inp == [] && population == [] && coveredLine == {} && crashMap == map[]
    {
      this.seeds := seeds;
      this.schedule := schedule;
      seedIndex := 0;
      inp := [];
      population := [];
      coveredLine := {};
      crashMap := map[];
    }

    /** What `create_candidate` leaves behind on the population `pop` it
        started from: the schedule assigned energies, and either `choose`
        raised (nothing else changed) or it trimmed the population in place
        to at most `MAX_SEEDS` of its seeds and the candidate is the stacking
        run on the chosen seed's data. */
    twostate predicate Candidate(pop: seq<Seed>, r: int, draw: (nat, Text) -> Mutation,
                                 new x: Result<Text>, new chosen: Result<(seq<Seed>, Seed)>, steps: seq<Text>)
      requires 1 <= r <= 5
      requires forall k: nat, t: Text :: IsDraw(draw(k, t), t)
      reads this, schedule, pop
    {
      && schedule.EnergyAssigned(pop, PowerSchedule.AssignOutcome(chosen))
      && (chosen.Err? ==>
            x == Err(chosen.error) && (x.error == KeyError || x.error == AssertionError) && population == pop)
      && (chosen.Ok? ==>
            && population == chosen.value.0
            && |population| <= MAX_SEEDS
            && chosen.value.1 in population
            && (forall s :: s in population ==> s in pop)
            && StackedFrom(chosen.value.1.data, r, draw, x, steps))
    }

    /** GreyBoxFuzzer.create_candidate, with the draws of `choose` (`u`), of
        the number of trials (`r`) and of each `mutate` (`draw`). */
    method CreateCandidate(u: real, r: int, draw: (nat, Text) -> Mutation)
        returns (x: Result<Text>, ghost chosen: Result<(seq<Seed>, Seed)>, ghost steps: seq<Text>)
      requires 0.0 <= u < 1.0 && 1 <= r <= 5
      requires forall k: nat, t: Text :: IsDraw(draw(k, t), t)
      modifies this`population, schedule`seedAges, population`energy
      ensures Candidate(old(population), r, draw, x, chosen, steps)
    {
      var choice := schedule.Choose(population, u);
      chosen := choice;
      if choice.Err? {
        return Err(choice.error), chosen, [];
      }
      population := choice.value.0;
      var trials;
      x, trials, steps := StackMutations(choice.value.1.data, r, draw);
    }

    /** GreyBoxFuzzer.fuzz: the seeds first, in order, then candidates. */
    method Fuzz(u: real, r: int, draw: (nat, Text) -> Mutation)
        returns (x: Result<Text>, ghost chosen: Result<(seq<Seed>, Seed)>, ghost steps: seq<Text>)
      requires 0.0 <= u < 1.0 && 1 <= r <= 5
      requires forall k: nat, t: Text :: IsDraw(draw(k, t), t)
      modifies this`seedIndex, this`inp, this`population, schedule`seedAges, population`energy
      ensures old(seedIndex) < |seeds| ==>
        && x == Ok(seeds[old(seedIndex)])
        && seedIndex == old(seedIndex) + 1
        && population == old(population)
        && unchanged(schedule) && unchanged(population)
      ensures old(seedIndex) >= |seeds| ==>
        seedIndex == old(seedIndex) && Candidate(old(population), r, draw, x, chosen, steps)
      ensures inp == if x.Ok? then x.value else old(inp)
    {
      if seedIndex < |seeds| {
        inp := seeds[seedIndex];
        seedIndex := seedIndex + 1;
        chosen, steps := Err(AssertionError), [];
      } else {
        var candidate;
        candidate, chosen, steps := CreateCandidate(u, r, draw);
        if candidate.Err? {
          return candidate, chosen, steps;
        }
        inp := candidate.value;
      }
      x := Ok(inp);
    }

    /** Calling `fuzz` once per seed on a fresh fuzzer yields the seeds in order. */
    method FuzzSeeds(u: real, r: int, draw: (nat, Text) -> Mutation) returns (xs: seq<Text>)
      requires 0.0 <= u < 1.0 && 1 <= r <= 5
      requires forall k: nat, t: Text :: IsDraw(draw(k, t), t)
      requires seedIndex == 0
      modifies this`seedIndex, this`inp, this`population, schedule`seedAges, population`energy
      ensures xs == seeds && seedIndex == |seeds|
      ensures population == old(population) && unchanged(schedule) && unchanged(population)
    {
      xs := [];
      while |xs| < |seeds|
        invariant seedIndex == |xs| <= |seeds|
        invariant xs == seeds[..|xs|]
        invariant population == old(population) && unchanged(schedule) && unchanged(population)
      {
        var x, _, _ := Fuzz(u, r, draw);
        xs := xs + [x.value];
      }
    }

    /** The admission block of `run`: `covered_line |= all_coverage` when the
        sizes differ, and on PASS the new seed `Seed(inp, coverage)` is
        appended. */
    twostate predicate Admitted(e: Execution)
      reads this, population
    {
      coveredLine == CoveredAfter(old(coveredLine), e.allCoverage) &&
      if Admits(old(coveredLine), e.allCoverage) && e.outcome == Pass then
        && |population| == |old(population)| + 1
        && population[..|old(population)|] == old(population)
        && fresh(population[|old(population)|])
        && population[|old(population)|].data == inp
        && population[|old(population)|].coverage == e.coverage
        && population[|old(population)|].energy == 0.0
        && population[|old(population)|].distance == -1.0
      else
        population == old(population)
    }

    method Admit(e: Execution) returns (added: bool)
      modifies this`coveredLine, this`population
      ensures added <==> Admits(old(coveredLine), e.allCoverage) && e.outcome == Pass
      ensures Admitted(e)
    {
      added := false;
      if |coveredLine| != |e.allCoverage| {
        coveredLine := coveredLine + e.allCoverage;
        if e.outcome == Pass {
          var seed := new Seed(inp, e.coverage);
          population := population + [seed];
          added := true;
        }
      }
    }

    /** The crash block of `run`: on FAIL the result is recorded under the
        input, over any earlier one; other inputs keep theirs.  The
        unique-crash count of the status line goes up only for a result not
        seen before, and by one. */
    method RecordCrash(e: Execution)
      modifies this`crashMap
      ensures crashMap == if e.outcome == Fail then old(crashMap)[inp := e.result] else old(crashMap)
      ensures UniqueCrashes(crashMap) <= UniqueCrashes(old(crashMap)) + 1
      ensures UniqueCrashes(crashMap) > UniqueCrashes(old(crashMap)) ==>
        e.outcome == Fail && e.result !in old(crashMap).Values
    {
      if e.outcome == Fail {
        CrashCountGrowsOnlyOnNewResult(crashMap, inp, e.result);
        crashMap := crashMap[inp := e.result];
      }
    }

    /** GreyBoxFuzzer.run on the execution `e` of the current input. */
    method Run(e: Execution) returns (result: Text, outcome: Outcome)
      modifies this`coveredLine, this`population, this`crashMap
      ensures (result, outcome) == (e.result, e.outcome)
      ensures Admitted(e)
      ensures crashMap == if e.outcome == Fail then old(crashMap)[inp := e.result] else old(crashMap)
      ensures old(coveredLine) <= e.allCoverage ==> coveredLine == e.allCoverage
    {
      if old(coveredLine) <= e.allCoverage {
        AdmissionIsNovelty(old(coveredLine), e.allCoverage);
      }
      var _ := Admit(e);
      RecordCrash(e);
      result, outcome := e.result, e.outcome;
    }
  }

  // ---------------------------------------------------------------------------
  // PathGreyBoxFuzzer

  class PathGreyBoxFuzzer {
    const fuzzer: GreyBoxFuzzer
    var totalExecs: nat
    var totalPath: nat

    /** The schedule counts paths, and every seed of the population has a
        counted path, so `assign_energy` finds every key. */
    ghost predicate Valid()
      reads this, fuzzer, fuzzer.schedule
    {
      fuzzer.schedule.policy.PathFrequency? && fuzzer.schedule.AllPathsKnown(fuzzer.population)
    }

    /** The number of paths the status line reports. */
    function PathCount(): nat
      reads this, fuzzer, fuzzer.schedule
    {
      |fuzzer.schedule.pathFrequencies|
    }

    /** PathGreyBoxFuzzer.__init__: a fresh fuzzer state and an emptied
        path-frequency map. */
    constructor (seeds: seq<Text>, schedule: PowerSchedule)
      requires schedule.policy.PathFrequency?
      modifies schedule`pathFrequencies
      ensures Valid() && fresh(fuzzer)
      ensures fuzzer.seeds == seeds && fuzzer.schedule == schedule
      ensures fuzzer.seedIndex == 0 && fuzzer.population == [] && fuzzer.coveredLine == {} && fuzzer.crashMap == map[]
      ensures schedule.pathFrequencies == map[] && PathCount() == 0
      ensures totalExecs == 0 && totalPath == 0
    {
      fuzzer := new GreyBoxFuzzer(seeds, schedule);
      totalExecs := 0;
      totalPath := 0;
      new;
      schedule.pathFrequencies := map[];
    }

    /** The second admission and crash blocks of PathGreyBoxFuzzer.run, with
        `total_path` counting an admitted seed. */
    method Readmit(e: Execution)
      modifies this`totalPath, fuzzer`coveredLine, fuzzer`population, fuzzer`crashMap
      ensures fuzzer.Admitted(e)
      ensures totalPath == old(totalPath) + (if Admits(old(fuzzer.coveredLine), e.allCoverage) && e.outcome == Pass then 1 else 0)
      ensures fuzzer.crashMap == if e.outcome == Fail then old(fuzzer.crashMap)[fuzzer.inp := e.result] else old(fuzzer.crashMap)
    {
      var added := fuzzer.Admit(e);
      if added {
        totalPath := totalPath + 1;
      }
      fuzzer.RecordCrash(e);
    }

    /** The bookkeeping of PathGreyBoxFuzzer.run before energies are
        assigned again: the base `run`, then the path of this run is counted
        (1 when new, one more otherwise), the execution is counted, and the
        admission and crash blocks run a second time, `total_path` counting a
        second admission.  A second seed is admitted only when the coverage
        seen so far is not part of the runner's coverage.  Every seed keeps a
        counted path. */
    method Record(e: Execution) returns (result: Text, outcome: Outcome)
      requires Valid()
      modifies this`totalExecs, this`totalPath, fuzzer`coveredLine, fuzzer`population, fuzzer`crashMap
      modifies fuzzer.schedule`pathFrequencies
      ensures Valid()
      ensures (result, outcome) == (e.result, e.outcome)
      ensures fuzzer.schedule.pathFrequencies == Bump(old(fuzzer.schedule.pathFrequencies), PathId(e.coverage))
      ensures totalExecs == old(totalExecs) + 1
      ensures var once := CoveredAfter(old(fuzzer.coveredLine), e.allCoverage);
        && fuzzer.coveredLine == CoveredAfter(once, e.allCoverage)
        && totalPath == old(totalPath) + (if Admits(once, e.allCoverage) && e.outcome == Pass then 1 else 0)
      ensures old(fuzzer.coveredLine) <= e.allCoverage ==> totalPath == old(totalPath)
      ensures |old(fuzzer.population)| <= |fuzzer.population| <= |old(fuzzer.population)| + 2
      ensures fuzzer.population[..|old(fuzzer.population)|] == old(fuzzer.population)
      ensures forall i :: |old(fuzzer.population)| <= i < |fuzzer.population| ==>
        fuzzer.population[i].data == fuzzer.inp && fuzzer.population[i].coverage == e.coverage
      ensures forall i :: |old(fuzzer.population)| <= i < |fuzzer.population| ==> fresh(fuzzer.population[i])
      ensures fuzzer.crashMap == if e.outcome == Fail then old(fuzzer.crashMap)[fuzzer.inp := e.result] else old(fuzzer.crashMap)
    {
      var schedule := fuzzer.schedule;
      ghost var pop0, covered0, crash0 := fuzzer.population, fuzzer.coveredLine, fuzzer.crashMap;
      result, outcome := fuzzer.Run(e);
      ghost var pop1, crash1 := fuzzer.population, fuzzer.crashMap;
      schedule.pathFrequencies := Bump(schedule.pathFrequencies, PathId(e.coverage));
      totalExecs := totalExecs + 1;
      if covered0 <= e.allCoverage {
        AdmissionIsNovelty(covered0, e.allCoverage);
      }
      Readmit(e);
      ghost var pop2 := fuzzer.population;
      if e.outcome == Fail {
        assert crash1 == crash0[fuzzer.inp := e.result];
        assert fuzzer.crashMap == crash1[fuzzer.inp := e.result] == crash1;
      }
      assert pop2[..|pop1|] == pop1 && pop1[..|pop0|] == pop0;
      assert pop2[..|pop0|] == pop2[..|pop1|][..|pop0|];
      forall i | |pop0| <= i < |pop2|
        ensures pop2[i].coverage == e.coverage && pop2[i].data == fuzzer.inp && fresh(pop2[i])
      {
        if i < |pop1| {
          assert i == |pop0| && pop2[i] == pop1[i];
        } else {
          assert i == |pop1|;
        }
      }
      assert schedule.AllPathsKnown(pop2) by {
        forall s | s in pop2 ensures PathId(s.coverage) in schedule.pathFrequencies {
          var i :| 0 <= i < |pop2| && pop2[i] == s;
          if i < |pop0| {
            assert s in pop0;
          }
        }
      }
    }

    /** PathGreyBoxFuzzer.run: the bookkeeping of `Record`, then
        `assign_energy` over the population, which never misses a path, so
        every seed gets the energy of its path's frequency. */
    method Run(e: Execution) returns (result: Text, outcome: Outcome)
      requires Valid()
      modifies this`totalExecs, this`totalPath, fuzzer`coveredLine, fuzzer`population, fuzzer`crashMap
      modifies fuzzer.schedule`pathFrequencies, fuzzer.population`energy
      ensures Valid()
      ensures (result, outcome) == (e.result, e.outcome)
      ensures fuzzer.schedule.pathFrequencies == Bump(old(fuzzer.schedule.pathFrequencies), PathId(e.coverage))
      ensures PathCount() == old(PathCount()) + (if PathId(e.coverage) in old(fuzzer.schedule.pathFrequencies) then 0 else 1)
      ensures totalExecs == old(totalExecs) + 1
      ensures var once := CoveredAfter(old(fuzzer.coveredLine), e.allCoverage);
        && fuzzer.coveredLine == CoveredAfter(once, e.allCoverage)
        && totalPath == old(totalPath) + (if Admits(once, e.allCoverage) && e.outcome == Pass then 1 else 0)
      ensures old(fuzzer.coveredLine) <= e.allCoverage ==> totalPath == old(totalPath)
      ensures |old(fuzzer.population)| <= |fuzzer.population| <= |old(fuzzer.population)| + 2
      ensures fuzzer.population[..|old(fuzzer.population)|] == old(fuzzer.population)
      ensures forall i :: |old(fuzzer.population)| <= i < |fuzzer.population| ==>
        fuzzer.population[i].data == fuzzer.inp && fuzzer.population[i].coverage == e.coverage
      ensures forall i :: |old(fuzzer.population)| <= i < |fuzzer.population| ==> fresh(fuzzer.population[i])
      ensures fuzzer.crashMap == if e.outcome == Fail then old(fuzzer.crashMap)[fuzzer.inp := e.result] else old(fuzzer.crashMap)
      ensures fuzzer.schedule.PathEnergiesSet(fuzzer.population)
    {
      result, outcome := Record(e);
      var assignment := fuzzer.schedule.AssignByPath(fuzzer.population);
    }

    /** `fuzz` inherited from GreyBoxFuzzer: under the path schedule the
        energy assignment of `choose` never misses a key, and the trimmed
        population keeps only counted paths. */
    method Fuzz(u: real, r: int, draw: (nat, Text) -> Mutation)
        returns (x: Result<Text>, ghost chosen: Result<(seq<Seed>, Seed)>, ghost steps: seq<Text>)
      requires Valid()
      requires 0.0 <= u < 1.0 && 1 <= r <= 5
      requires forall k: nat, t: Text :: IsDraw(draw(k, t), t)
      modifies fuzzer`seedIndex, fuzzer`inp, fuzzer`population, fuzzer.schedule`seedAges, fuzzer.population`energy
      ensures Valid()
      ensures x.Err? ==> x.error == AssertionError || x.error == ValueError || x.error == OverflowError
      ensures old(fuzzer.seedIndex) >= |fuzzer.seeds| ==> fuzzer.Candidate(old(fuzzer.population), r, draw, x, chosen, steps)
    {
      x, chosen, steps := fuzzer.Fuzz(u, r, draw);
    }
  }

  // ---------------------------------------------------------------------------
  // CrashGreyBoxFuzzer

  class CrashGreyBoxFuzzer {
    const fuzzer: GreyBoxFuzzer

    constructor (seeds: seq<Text>, schedule: PowerSchedule)
      requires schedule.policy.CrashCount?
      ensures fresh(fuzzer) && fuzzer.seeds == seeds && fuzzer.schedule == schedule
      ensures fuzzer.seedIndex == 0 && fuzzer.population == [] && fuzzer.coveredLine == {} && fuzzer.crashMap == map[]
    {
      fuzzer := new GreyBoxFuzzer(seeds, schedule);
    }

    /** CrashGreyBoxFuzzer.run: the base `run` unchanged, then on FAIL the
        crash count of the input goes up by one (from nothing to 1), keyed by
        the input alone. */
    method Run(e: Execution) returns (result: Text, outcome: Outcome)
      modifies fuzzer`coveredLine, fuzzer`population, fuzzer`crashMap, fuzzer.schedule`crashCounts
      ensures (result, outcome) == (e.result, e.outcome)
      ensures fuzzer.Admitted(e)
      ensures fuzzer.crashMap == if e.outcome == Fail then old(fuzzer.crashMap)[fuzzer.inp := e.result] else old(fuzzer.crashMap)
      ensures fuzzer.schedule.crashCounts ==
        if e.outcome == Fail then Bump(old(fuzzer.schedule.crashCounts), fuzzer.inp) else old(fuzzer.schedule.crashCounts)
    {
      result, outcome := fuzzer.Run(e);
      if outcome == Fail {
        var seed := new Seed(fuzzer.inp, e.coverage);
        fuzzer.schedule.IncrementCrashCount(seed);
      }
    }
  }
}
