# A verified model of simple_fuzzer's grey-box fuzzing core

`simple_fuzzer` is a small coverage-guided grey-box fuzzer in Python. This
project is a Dafny model of its core, in three parts:

- **The mutation operators** (`utils/Mutator.py`). Each of the six
  operators is a string rewrite driven by random draws. Here every draw is
  an explicit parameter whose range is a precondition, so an operator is a
  deterministic function of its input and its draws. A draw from an empty
  range raises `ValueError` in Python. The model returns it as
  `Err(ValueError)`. A `chr` of a value too large for a C `int` raises
  `OverflowError` in CPython, and the model returns `Err(OverflowError)`.
- **The power schedules** (`schedule/*.py`). Each schedule assigns an
  energy to every seed in place. The age, crash and path schedules keep
  dictionaries beside the seeds. The shared `choose` does three things:
  - it normalises the energies;
  - it evicts the lightest seeds down to `MAX_SEEDS`;
  - it draws one survivor by weight.
- **The feedback-loop drivers** (`fuzzer/*.py`). `GreyBoxFuzzer` hands out
  the initial seeds, then mutates chosen seeds. Its `run` folds one
  execution into `covered_line`, `population` and `crash_map`. The path
  and crash fuzzers extend `run` with their schedule's bookkeeping.

Files and modules:

| file | module | contents |
|---|---|---|
| `outcomes.dfy` | `Outcomes` | the Python exceptions the core raises; `Result` |
| `seed.dfy` | `Seeds` | `Location`, the `Seed` class (data, coverage, energy, distance) |
| `mutator.dfy` | `Mutator` | the six operators, `mutate`, and the stacking loop of `create_candidate` |
| `selection.dfy` | `Selection` | `normalized_energy`, the eviction loop and `random.choices` |
| `path_id.dfy` | `PathIds` | `get_path_id`: the ordering Python sorts locations by, and the sorted listing |
| `schedule.dfy` | `Schedules` | the schedule class, every `assign_energy`, `LevelPowerSchedule.assignEnergy` and `choose` |
| `clock.dfy` | `Clock` | `format_seconds` and how to read its output back |
| `fuzzer.dfy` | `Fuzzers` | `GreyBoxFuzzer`, `PathGreyBoxFuzzer`, `CrashGreyBoxFuzzer` |

Representation choices:

- **Strings.** A Python `str` is a sequence of integer code points
  (`Text = seq<int>`). This lets the model state that the four-byte
  interesting value 4294967295 makes `chr` raise.
- **Energies.** Energies are exact reals. Exponents are natural numbers.
- **The schedule class.** The six schedule classes become one class whose
  `policy` names the subclass. The subclasses' dictionaries are fields of
  that class.
- **Subclassing.** `super()` in the path and crash fuzzers becomes a
  `GreyBoxFuzzer` that the subclass holds and whose state it shares.

The code is followed where it differs from its docstrings and comments:

- **Mutation can raise.** An input shorter than the width `N` raises
  `ValueError`, because `randint(0, len(s) - N)` has an empty range. So
  does a havoc splice that draws `start == len(s)`.
- **`flip_random_bits` does not flip bits.** It rewrites characters:
  `'0'` becomes `'1'`, and every other character becomes `'0'`.
- **Admission compares sizes.** `run` admits an input when the size of
  `covered_line` differs from the size of the runner's cumulative
  coverage. It does not test for a new location.
  - `Fuzzers.AdmissionIsNovelty` proves that the two tests agree while
    the coverage seen so far is part of the cumulative coverage.
  - `Fuzzers.SizeTestMissesNewLocation` gives an input where they differ.
- **`LevelPowerSchedule` does not override `assign_energy`.** It defines
  `assignEnergy` (camelCase) instead. So its `choose` uses the base
  class's uniform energy. `assignEnergy` is modelled on its own, as
  `AssignEnergyByDistance`.
- **`PathGreyBoxFuzzer.run` runs the admission block twice.** Once in the
  base `run`, and once more in its own body. The second admission can
  only happen when the coverage seen so far is not part of the runner's
  cumulative coverage.

## Model

| member | source | states |
|---|---|---|
| Mutator.InterestingValues | simple_fuzzer/utils/Mutator.py:69-73 | the table has 5 one-byte values or 4 wider ones, and each row starts with 0 and 1 |
| Mutator.ChrError | simple_fuzzer/utils/Mutator.py:85 | the exception `chr` raises beyond the last code point: `OverflowError` above the largest C `int`, `ValueError` below it |
| Mutator.InterestingOutOfRange | simple_fuzzer/utils/Mutator.py:69-85 | only the last four-byte value is beyond what `chr` accepts, and it is too large for a C `int`, so `chr` raises `OverflowError` on it |
| Mutator.InsertRandomCharacter | simple_fuzzer/utils/Mutator.py:8-16 | one character longer; the drawn character is at `pos`; removing it gives back `s`; a string stays a string |
| Mutator.FlipChar | simple_fuzzer/utils/Mutator.py:30 | the result is '0' or '1', and it is '1' exactly when the input was '0' |
| Mutator.FlipCharTwice | simple_fuzzer/utils/Mutator.py:30 | rewriting twice restores a character exactly when it was '0' or '1' |
| Mutator.FlipRandomBits | simple_fuzzer/utils/Mutator.py:18-31 | raises exactly when `len(s) < N`; otherwise same length, the `N` characters from `index` rewritten, the rest unchanged |
| Mutator.ArithmeticRandomBytes | simple_fuzzer/utils/Mutator.py:34-57 | raises exactly when `len(s) < N`; otherwise same length, prefix and suffix kept; each of the `N` characters is in [0, 255] and congruent to its old value plus `delta` modulo 256 |
| Mutator.InterestingRandomBytes | simple_fuzzer/utils/Mutator.py:60-86 | raises exactly when `len(s) < N` (`ValueError`) or a drawn value is beyond `chr`'s range (`OverflowError`); otherwise same length, the `N` characters replaced by the drawn table values, the rest unchanged |
| Mutator.PieceContent | simple_fuzzer/utils/Mutator.py:97-106 | the splice draw raises exactly when `start == len(s)`; otherwise it is a non-empty slice of `s`; the fresh draw is 1 to 10 letters and digits |
| Mutator.HavocRandomInsert | simple_fuzzer/utils/Mutator.py:89-110 | raises exactly when the piece does; the length grows by the piece's; the piece sits at `index`; cutting it out gives back `s` |
| Mutator.HavocRandomReplace | simple_fuzzer/utils/Mutator.py:114-135 | raises exactly when the piece does; the length is `max(len(s), index + len(piece))`; the prefix is kept; the piece sits at `index`; the tail is kept when the piece fits |
| Mutator.MutationError | simple_fuzzer/utils/Mutator.py:60-153 | the exception a raising operator raises: `OverflowError` for the interesting values once the width fits, `ValueError` for every other case |
| Mutator.Raises | simple_fuzzer/utils/Mutator.py:8-135 | when each operator raises: never for the insertion; an input shorter than `N` for the three byte operators; a value beyond `chr`'s range for the interesting values; a splice drawn at `start == len(s)` for the havoc operators |
| Mutator.Applied | simple_fuzzer/utils/Mutator.py:8-135 | the result each operator gives on its draws when it does not raise |
| Mutator.Mutate | simple_fuzzer/utils/Mutator.py:138-153 | applies exactly the operator its draw names; raises exactly when that operator raises, with that operator's exception; never shortens its input |
| Mutator.Pow2 | simple_fuzzer/fuzzer/GreyBoxFuzzer.py:48 | `1 << k`, at least 1 |
| Mutator.Trials | simple_fuzzer/fuzzer/GreyBoxFuzzer.py:48 | `min(len, 2^r)`: at most the length and at most 32 |
| Mutator.StackMutations | simple_fuzzer/fuzzer/GreyBoxFuzzer.py:46-51 | `min(len, 2^r)` trials, each step being `mutate` of the step before; a raising trial ends the loop with its exception; empty data comes back unchanged; the candidate is never shorter than the seed |
| Seeds.Seed.constructor | simple_fuzzer/fuzzer/GreyBoxFuzzer.py:92 | a new seed keeps its data and coverage, with energy 0 and no distance yet (-1) |
| Seeds.Energies | simple_fuzzer/schedule/PowerSchedule.py:18 | the energies of the population, in order |
| Selection.Sum | simple_fuzzer/schedule/PowerSchedule.py:19 | Python's `sum` of the energies; its properties are `SumOfNonNegative` and `NormalizedSumsToOne` |
| Selection.SumOfNonNegative | simple_fuzzer/schedule/PowerSchedule.py:19 | non-negative energies have a non-negative sum, and a positive one exactly when some energy is positive |
| Selection.Normalized | simple_fuzzer/schedule/PowerSchedule.py:16-22 | fails the assert exactly when the energies sum to 0; otherwise as long as the population, and element `i` times the sum is energy `i` |
| Selection.NormalizedSumsToOne | simple_fuzzer/schedule/PowerSchedule.py:18-22 | with a non-zero sum the weights sum to 1 |
| Selection.NormalizedKeepsOrder | simple_fuzzer/schedule/PowerSchedule.py:21 | with a positive sum, weight `i` is at most weight `j` exactly when energy `i` is at most energy `j` |
| Selection.NormalizedNonNegative | simple_fuzzer/schedule/PowerSchedule.py:21 | non-negative energies give weights in [0, 1] |
| Selection.FirstMinIndex | simple_fuzzer/schedule/PowerSchedule.py:29 | `norm_energy.index(min(norm_energy))`: the index of a least weight, with every earlier weight larger |
| Selection.RemoveAt | simple_fuzzer/schedule/PowerSchedule.py:30-31 | `del xs[k]`: one shorter, the elements before `k` kept, the ones after shifted down by one |
| Selection.Evict | simple_fuzzer/schedule/PowerSchedule.py:28-31 | the two lists stay aligned, and exactly `min(len, MAX_SEEDS)` items remain |
| Selection.EvictExcess | simple_fuzzer/schedule/PowerSchedule.py:28-31 | the `while`/`del` loop computes `Evict` with bound `MAX_SEEDS` |
| Selection.LiftEvictedFirst | simple_fuzzer/schedule/PowerSchedule.py:29-31 | removing the first least weight, then evicting by weight, still evicts lighter (or equal and earlier) weights first |
| Selection.EvictionKeeps | simple_fuzzer/schedule/PowerSchedule.py:28-31 | what survives is the seeds and weights at the same increasing indices, so still aligned and in their old order; no evicted weight exceeds a kept one, and of equal weights the earlier one goes first |
| Selection.EvictionRetainsItems | simple_fuzzer/schedule/PowerSchedule.py:28-31 | every seed that survives eviction was in the population |
| Selection.EvictionKeepsWeight | simple_fuzzer/schedule/PowerSchedule.py:28-31 | with non-negative weights of positive sum and room for one seed, the surviving weights still have a positive sum |
| Selection.FirstExceeding | simple_fuzzer/schedule/PowerSchedule.py:42 | the index `random.choices` picks for a point: always a valid index |
| Selection.DrawPoint | simple_fuzzer/schedule/PowerSchedule.py:42 | `random() * total` lies in [0, total) |
| Selection.FirstExceedingHasWeight | simple_fuzzer/schedule/PowerSchedule.py:42 | among non-negative weights, a point below the total never lands on a seed of weight 0 |
| Selection.Choices | simple_fuzzer/schedule/PowerSchedule.py:42 | `random.choices(...)[0]` as an index: `IndexError` on no weights, `ValueError` on a total of at most 0; otherwise a valid index, of positive weight when weights are non-negative |
| Selection.SurvivorsDrawable | simple_fuzzer/schedule/PowerSchedule.py:27-42 | after normalising non-negative energies of non-zero sum and evicting, the draw has positive weight to choose from, and only population seeds survive |
| Selection.SelectFrom | simple_fuzzer/schedule/PowerSchedule.py:27-43 | normalise, evict, draw: with non-negative energies it raises exactly when they sum to 0; otherwise it returns the evicted list (at most `MAX_SEEDS`, all from the population) and an element of it |
| PathIds.StrLess | simple_fuzzer/schedule/PathPowerSchedule.py:12 | Python's `<` on two strings, by code point; `LocLessIsStrictTotalOrder` proves the order it induces strict and total |
| PathIds.LocLess | simple_fuzzer/schedule/PathPowerSchedule.py:12 | Python's `<` on (name, line) pairs: by name, then by line |
| PathIds.SortedCoverage | simple_fuzzer/schedule/PathPowerSchedule.py:12 | `sorted(coverage)`, the least location first; `SortedCoverageIsSortedListing` proves it increasing and listing exactly the coverage |
| PathIds.PathId | simple_fuzzer/schedule/PathPowerSchedule.py:10-13 | `get_path_id`, with the digest left out; `PathIdIsCanonical` and `PathIdInjective` state what it promises |
| PathIds.LocLessIsStrictTotalOrder | simple_fuzzer/schedule/PathPowerSchedule.py:12 | the order `sorted` uses on (name, line) pairs is a strict total order |
| PathIds.SortedCoverageIsSortedListing | simple_fuzzer/schedule/PathPowerSchedule.py:12 | `sorted(coverage)` is strictly increasing and lists exactly the coverage set |
| PathIds.SortedListingUnique | simple_fuzzer/schedule/PathPowerSchedule.py:12 | two increasing listings of the same elements are equal |
| PathIds.PathIdIsCanonical | simple_fuzzer/schedule/PathPowerSchedule.py:10-13 | the path id is the one increasing listing of the coverage, whatever order its elements come in |
| PathIds.PathIdInjective | simple_fuzzer/schedule/PathPowerSchedule.py:10-13 | two coverages have the same path id exactly when they are equal |
| Schedules.Bump | simple_fuzzer/schedule/CrashPowerSchedule.py:22-26 | a new key gets 1, an existing key goes up by exactly 1; other keys are unchanged and no key is dropped |
| Schedules.CoverageEnergy | simple_fuzzer/schedule/CoveragePowerSchedule.py:10 | the energy is a non-negative whole number, zero exactly when the seed covered nothing |
| Schedules.ZeroEnergiesFailNormalisation | simple_fuzzer/schedule/PowerSchedule.py:19-20 | all-zero energies (every coverage empty, under the coverage schedule) sum to 0, so the normalisation assert fails |
| Schedules.AgesAfter | simple_fuzzer/schedule/AgePowerSchedule.py:13-16 | the ages after one walk over the population; `AgesAfterCounts` states what it counts |
| Schedules.AgeEnergy | simple_fuzzer/schedule/AgePowerSchedule.py:17 | `1 / age` lies in (0, 1] |
| Schedules.AgeEnergyDecreases | simple_fuzzer/schedule/AgePowerSchedule.py:16-17 | an older seed gets strictly less energy |
| Schedules.AgesAfterCounts | simple_fuzzer/schedule/AgePowerSchedule.py:13-16 | one call adds to each listed seed's age the number of times it is listed (a new seed starts from 0); keys are only added; other seeds' ages are unchanged |
| Schedules.CrashEnergy | simple_fuzzer/schedule/CrashPowerSchedule.py:15-18 | the crash count of the seed's data, or 1 without one; always at least 1 |
| Schedules.Pow | simple_fuzzer/schedule/PathPowerSchedule.py:42 | `freq ** exponent` on naturals, at least 1 for a frequency of at least 1 |
| Schedules.PathEnergy | simple_fuzzer/schedule/PathPowerSchedule.py:41-43 | `1 / freq ** exponent` lies in (0, 1] |
| Schedules.PathEnergyAntitone | simple_fuzzer/schedule/PathPowerSchedule.py:41-43 | a more frequent path never gets more energy |
| Schedules.PathEnergyExamples | simple_fuzzer/schedule/PathPowerSchedule.py:41-43 | exponent 1 with frequency 4 gives 0.25; exponent 0 gives 1 |
| Schedules.KnownFunctions | simple_fuzzer/schedule/LevelPowerSchedule.py:31-32 | the seed's functions that have a known distance |
| Schedules.MeanDistance | simple_fuzzer/schedule/LevelPowerSchedule.py:29-35 | `sum_dist / num_dist` over the known functions, `ZeroDivisionError` when there is none |
| Schedules.SettledDistance | simple_fuzzer/schedule/LevelPowerSchedule.py:28-35 | a seed's distance after the first loop: a non-negative cached distance is kept, a negative one becomes the mean |
| Schedules.LowestDistance | simple_fuzzer/schedule/LevelPowerSchedule.py:24-37 | `min_dist` after the first loop; `DistanceBounds` states its bounds |
| Schedules.HighestDistance | simple_fuzzer/schedule/LevelPowerSchedule.py:25-39 | `max_dist` after the first loop; `DistanceBounds` states its bounds |
| Schedules.SumOverBounds | simple_fuzzer/schedule/LevelPowerSchedule.py:29-34 | the summed distances lie between the least and the greatest distance times their number |
| Schedules.DistanceBounds | simple_fuzzer/schedule/LevelPowerSchedule.py:24-39 | `min_dist` is at most 0xFFFF and every distance, and is 0xFFFF or one of the distances; `max_dist` likewise from above, starting at 0 |
| Schedules.LevelEnergy | simple_fuzzer/schedule/LevelPowerSchedule.py:41-48 | the energy of the second loop; `LevelEnergyPositive` and `LevelEnergyCloserIsHigher` state its properties |
| Schedules.LevelEnergyPositive | simple_fuzzer/schedule/LevelPowerSchedule.py:41-48 | every seed between the least and the greatest distance gets positive energy |
| Schedules.LevelEnergyCloserIsHigher | simple_fuzzer/schedule/LevelPowerSchedule.py:48 | off the minimum, a seed closer to the target never gets less energy |
| Schedules.GetFunctions | simple_fuzzer/schedule/LevelPowerSchedule.py:15-19 | the set of function names of the coverage |
| Schedules.SumKnownDistances | simple_fuzzer/schedule/LevelPowerSchedule.py:29-34 | `num_dist` is the number of the seed's functions with a known distance, and `sum_dist` is the sum of their distances |
| Schedules.PowerSchedule.constructor | simple_fuzzer/schedule/PathPowerSchedule.py:18-22 | every schedule starts with empty age, crash-count and path-frequency dictionaries |
| Schedules.PowerSchedule.AssignUniform | simple_fuzzer/schedule/PowerSchedule.py:11-14 | every seed gets energy 1; nothing else changes |
| Schedules.PowerSchedule.AssignByCoverage | simple_fuzzer/schedule/CoveragePowerSchedule.py:7-10 | every seed gets the size of its coverage; only energies change |
| Schedules.PowerSchedule.AssignByAge | simple_fuzzer/schedule/AgePowerSchedule.py:11-17 | the ages become `AgesAfter` the population, and every seed gets `1 / age` |
| Schedules.PowerSchedule.AssignByCrashes | simple_fuzzer/schedule/CrashPowerSchedule.py:11-18 | every seed gets `CrashEnergy` of its data; only energies change |
| Schedules.PowerSchedule.IncrementCrashCount | simple_fuzzer/schedule/CrashPowerSchedule.py:20-26 | the count of the seed's data is bumped; nothing else changes |
| Schedules.PowerSchedule.AssignByPath | simple_fuzzer/schedule/PathPowerSchedule.py:37-43 | raises `KeyError` exactly when some seed's path is not counted; otherwise every seed gets `PathEnergy` of its path's frequency; on a missing key the seeds before it are assigned and the rest keep their energy |
| Schedules.PowerSchedule.AssignEnergy | simple_fuzzer/schedule/PowerSchedule.py:26 | dispatches on the subclass; the Level schedule gets the uniform energy; only the age schedule changes the ages |
| Schedules.PowerSchedule.AverageDistance | simple_fuzzer/schedule/LevelPowerSchedule.py:29-35 | the mean distance of the seed's known functions, or `ZeroDivisionError` when there is none |
| Schedules.PowerSchedule.SettledBefore | simple_fuzzer/schedule/LevelPowerSchedule.py:27-35 | the state the first loop leaves when seed `k` raises: the seeds before it settled, the seeds not yet reached unchanged |
| Schedules.PowerSchedule.SettleOne | simple_fuzzer/schedule/LevelPowerSchedule.py:28-35 | one seed's distance becomes its settled distance, or stays put when settling raises |
| Schedules.PowerSchedule.SettleDistances | simple_fuzzer/schedule/LevelPowerSchedule.py:24-39 | succeeds exactly when every seed's distance can be settled, and then a cached distance is kept, a negative one becomes the mean, and the least and greatest distance are returned; otherwise `ZeroDivisionError` at some seed `k` that cannot be settled, with every seed before `k` settled and every seed not yet reached unchanged |
| Schedules.PowerSchedule.SetLevelEnergies | simple_fuzzer/schedule/LevelPowerSchedule.py:41-48 | every seed gets `LevelEnergy` of its distance: 1 or `max - min` at the minimum, `(max - min) / (d - min)` elsewhere |
| Schedules.PowerSchedule.AssignEnergyByDistance | simple_fuzzer/schedule/LevelPowerSchedule.py:21-48 | both loops: raises exactly when some distance cannot be settled, leaving the energies untouched and the distances as `SettleDistances` leaves them; otherwise distances are settled and every energy is positive and relative to the least and greatest distance |
| Schedules.PowerSchedule.Choose | simple_fuzzer/schedule/PowerSchedule.py:24-43 | assigns energies, then raises only `KeyError` or `AssertionError`, the latter exactly when the energies sum to 0; otherwise returns the trimmed population (at most `MAX_SEEDS` seeds, all from the population) and a seed of it |
| Clock.Trunc | simple_fuzzer/fuzzer/GreyBoxFuzzer.py:67 | `int(x)` truncates toward zero: the greatest integer at most `x` when `x` is non-negative, the least integer at least `x` when it is negative |
| Clock.ModHour | simple_fuzzer/fuzzer/GreyBoxFuzzer.py:68 | `x % 3600` lies in [0, 3600) |
| Clock.Hours | simple_fuzzer/fuzzer/GreyBoxFuzzer.py:67 | `int(seconds) // 3600` |
| Clock.Minutes | simple_fuzzer/fuzzer/GreyBoxFuzzer.py:68 | `int(seconds % 3600) // 60` |
| Clock.Seconds | simple_fuzzer/fuzzer/GreyBoxFuzzer.py:69 | `int(seconds) % 60`; `ClockFields` states how the three fields recombine |
| Clock.Pad2 | simple_fuzzer/fuzzer/GreyBoxFuzzer.py:70 | `f"{n:02d}"`; `Pad2RoundTrip` states that it reads back |
| Clock.FormatSeconds | simple_fuzzer/fuzzer/GreyBoxFuzzer.py:66-70 | `format_seconds`; `FormatRoundTrip` and `FormatExample` state its form and value |
| Clock.Pad2RoundTrip | simple_fuzzer/fuzzer/GreyBoxFuzzer.py:70 | `02d` of a non-negative field reads back as the field, in two digits below 100 |
| Clock.ClockFields | simple_fuzzer/fuzzer/GreyBoxFuzzer.py:66-70 | hours, minutes and seconds recombine to the whole seconds; minutes and seconds are in [0, 60) |
| Clock.FormatRoundTrip | simple_fuzzer/fuzzer/GreyBoxFuzzer.py:66-70 | the output has the form `HH:MM:SS` and reads back as the whole seconds |
| Clock.FormatExample | simple_fuzzer/fuzzer/GreyBoxFuzzer.py:66-70 | 3725.5 seconds shows as `01:02:05` |
| Fuzzers.Admits | simple_fuzzer/fuzzer/GreyBoxFuzzer.py:88 | the admission test compares the sizes; `AdmissionIsNovelty` and `SizeTestMissesNewLocation` relate it to a new location |
| Fuzzers.CoveredAfter | simple_fuzzer/fuzzer/GreyBoxFuzzer.py:88-89 | `covered_line` only grows, and takes in the runner's coverage whenever the sizes differ |
| Fuzzers.AdmissionIsNovelty | simple_fuzzer/fuzzer/GreyBoxFuzzer.py:88-89 | while the seen coverage is part of the runner's, the size test holds exactly when a location is new, and afterwards the two agree |
| Fuzzers.SizeTestMissesNewLocation | simple_fuzzer/fuzzer/GreyBoxFuzzer.py:88 | outside that case the size test misses a new location |
| Fuzzers.ValuesAtMostKeys | simple_fuzzer/fuzzer/GreyBoxFuzzer.py:78 | a map has no more distinct values than keys |
| Fuzzers.UniqueCrashes | simple_fuzzer/fuzzer/GreyBoxFuzzer.py:78 | the number of distinct crash results: at most the number of crashing inputs, and at least 1 after a crash |
| Fuzzers.CrashCountGrowsOnlyOnNewResult | simple_fuzzer/fuzzer/GreyBoxFuzzer.py:78-96 | one write to the crash map adds at most one unique crash, and adds one only when the written result was not already a value |
| Fuzzers.UniqueCrashesCountsResults | simple_fuzzer/fuzzer/GreyBoxFuzzer.py:78 | two inputs crashing with the same result are two keys but one unique crash |
| Fuzzers.GreyBoxFuzzer.constructor | simple_fuzzer/fuzzer/GreyBoxFuzzer.py:19-34 | index 0, empty population, coverage and crash map |
| Fuzzers.GreyBoxFuzzer.CreateCandidate | simple_fuzzer/fuzzer/GreyBoxFuzzer.py:42-51 | `choose` assigns energies and either raises with nothing else changed, or trims the population to at most `MAX_SEEDS` of its seeds; the candidate is the stacking run on the chosen seed |
| Fuzzers.GreyBoxFuzzer.Fuzz | simple_fuzzer/fuzzer/GreyBoxFuzzer.py:53-63 | while seeding it returns the next seed, bumps the index and changes nothing else; afterwards the index stays put and the input is a candidate; `inp` is what it returns |
| Fuzzers.GreyBoxFuzzer.FuzzSeeds | simple_fuzzer/fuzzer/GreyBoxFuzzer.py:53-63 | the first `len(seeds)` calls return the seeds in order |
| Fuzzers.GreyBoxFuzzer.Admit | simple_fuzzer/fuzzer/GreyBoxFuzzer.py:88-93 | the coverage grows by the union when the sizes differ, and then on PASS exactly one fresh `Seed(inp, coverage)` is appended; otherwise the population is unchanged |
| Fuzzers.GreyBoxFuzzer.RecordCrash | simple_fuzzer/fuzzer/GreyBoxFuzzer.py:94-96 | on FAIL `crash_map[inp] := result`, last write winning; otherwise unchanged; the unique-crash count grows by at most one, and only on a FAIL with a result not seen before |
| Fuzzers.GreyBoxFuzzer.Run | simple_fuzzer/fuzzer/GreyBoxFuzzer.py:82-98 | admission and crash recording as above, returning the runner's pair |
| Fuzzers.PathGreyBoxFuzzer.PathCount | simple_fuzzer/fuzzer/PathGreyBoxFuzzer.py:65 | the number of paths the status line reports: the size of the path-frequency map |
| Fuzzers.PathGreyBoxFuzzer.constructor | simple_fuzzer/fuzzer/PathGreyBoxFuzzer.py:16-32 | a fresh fuzzer state, zero counters, and the path frequencies reset to empty |
| Fuzzers.PathGreyBoxFuzzer.Readmit | simple_fuzzer/fuzzer/PathGreyBoxFuzzer.py:84-96 | the second admission and crash blocks; `total_path` goes up exactly when a seed is admitted |
| Fuzzers.PathGreyBoxFuzzer.Record | simple_fuzzer/fuzzer/PathGreyBoxFuzzer.py:71-96 | the path's frequency is bumped; `total_execs` goes up by 1; `covered_line` and `total_path` as in `Run`; at most two fresh seeds for this input and coverage are appended; every seed keeps a counted path |
| Fuzzers.PathGreyBoxFuzzer.Run | simple_fuzzer/fuzzer/PathGreyBoxFuzzer.py:71-103 | the path's frequency is bumped, and the path count grows exactly when the path is new; `total_execs` goes up by 1; `covered_line` takes in the runner's coverage through both admission blocks; `total_path` goes up by 1 exactly when the second admission block admits a PASS, and stays put while the coverage seen so far is part of the runner's; at most two fresh `Seed(inp, coverage)` are appended and the old seeds kept; `crash_map` as in the base `run`; the final `assign_energy` never misses a key, so every seed gets its path's energy |
| Fuzzers.PathGreyBoxFuzzer.Fuzz | simple_fuzzer/fuzzer/GreyBoxFuzzer.py:53-63 | under the path schedule `fuzz` never raises `KeyError`, and every seed keeps a counted path |
| Fuzzers.CrashGreyBoxFuzzer.constructor | simple_fuzzer/fuzzer/CrashGreyBoxFuzzer.py:11-12 | the base fuzzer's fresh state |
| Fuzzers.CrashGreyBoxFuzzer.Run | simple_fuzzer/fuzzer/CrashGreyBoxFuzzer.py:14-38 | the base `run` unchanged; on FAIL the crash count of the input is bumped, keyed by the input alone, and otherwise left unchanged |

## Left out

- Printing and timestamps are not modelled. This covers:
  - the banners and `print_stats`;
  - `start_time`, `last_crash_time` and `last_path_time`;
  - the `print(self.population)` in `PathGreyBoxFuzzer.run`.

  The model keeps `format_seconds` and the unique-crash count.
- `main.py`, the runner, and the `Fuzzer` base class are not part of this
  model. One execution of the current input is an `Execution` value with
  these fields:
  - its result, as text;
  - its outcome;
  - its coverage;
  - the runner's cumulative coverage.
- `utils/Seed.py` is not part of this model. A new seed is assumed to
  start with energy 0 and distance -1.
- `Schedules.PowerSchedule.AssignByAge`: `seed_ages` is a map keyed by
  the `Seed` object itself, so two seeds with equal data have two ages.
  This assumes `Seed` keeps Python's default identity hashing and
  equality; `utils/Seed.py` could override them.
- `OverflowError` for `chr(4294967295)` is CPython's behaviour: its
  `chr` converts the argument to a C `int` first. Another Python
  implementation may raise `ValueError` there.
- Randomness is not modelled. Every draw is a parameter constrained to its
  range. The model says nothing about the distribution.
  - `random.choices` is modelled as "the first index whose cumulative
    weight exceeds `random() * total`". For non-negative weights this is
    the index CPython's bisection finds.
  - `random.random() < 0.75` in the havoc operators becomes the choice
    between a `Splice` and a `Fresh` piece.
- The MD5 digest of the pickled sorted coverage is not modelled. The path
  id is the sorted list itself, which is a digest without collisions.
- Floating point is not modelled. Energies and distances are exact reals.
  The `exponent` of the path schedule is a natural number.
- `Schedules.PowerSchedule.Choose`: the population list shrinks in place
  in the source. Here the trimmed list is returned, and
  `GreyBoxFuzzer.CreateCandidate` stores it back into `population`.
  Another holder of the same list would see the shrinking in Python but
  not in the model.
- `Fuzzers.GreyBoxFuzzer.constructor`: `inp` is not set before the first
  `fuzz` in the source. Here it starts empty.
- `Fuzzers.PathGreyBoxFuzzer.Fuzz`: its contract covers only the
  path-schedule guarantees. The rest is the base `Fuzz`'s contract, which
  it calls.
- `LevelPowerSchedule.exponent` is kept in the policy but never read. The
  source does not read it either, except in commented-out code.
- Commented-out code is not modelled:
  - the heap-based eviction;
  - `path_to_string` and `update_path_frequencies`;
  - the old `assignEnergy`;
  - the admission code in `CrashGreyBoxFuzzer.run`.
- The Java application under `src/` only wraps a web framework and
  database access, so it is not modelled.
