/** The seed a fuzzer keeps: an input, the coverage its execution produced,
    and the scheduling fields the power schedules write.  The fields and their
    initial values follow how the core uses `utils.Seed` (utils/Seed.py is
    not part of this model): a fresh seed has energy 0 and the distance -1
    that the distance-based schedule reads as "not yet computed". */
module Seeds {

  /** A covered program location: a function name and a line number, the
      pairs `LevelPowerSchedule.__getFunctions__` unpacks. */
  type Location = (string, int)

  class Seed {
    const data: seq<int>
    const coverage: set<Location>
    var energy: real
    var distance: real

    constructor (data: seq<int>, coverage: set<Location>)
      ensures this.data == data && this.coverage == coverage
      ensures energy == 0.0 && distance == -1.0
    {
      this.data := data;
      this.coverage := coverage;
      energy := 0.0;
      distance := -1.0;
    }
  }

  /** The energies of `population`, in order: the list `normalized_energy`
      builds with `map(lambda seed: seed.energy, population)`. */
  function Energies(population: seq<Seed>): (es: seq<real>)
    reads population
    ensures |es| == |population|
    ensures forall i :: 0 <= i < |population| ==> es[i] == population[i].energy
  {
    seq(|population|, i requires 0 <= i < |population| reads population => population[i].energy)
  }
}
