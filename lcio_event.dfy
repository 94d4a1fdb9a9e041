/** The per-event input of the seed-performance processor: the three LCIO
    collections it reads (truth particles, seeds, truth-to-seed relations).
    Object identity (the pointer the C++ code puts into its std::sets) is an
    integer id here. */
module LcioEvent {

  datatype Option<+T> = None | Some(value: T)

  /** A generator-level truth particle, reduced to what the track selection
      looks at. `inAcceptance` stands for the polar-angle cut
      |atan2(pz, pt)| <= 75/180*3.14, which is floating-point and left opaque. */
  datatype McParticle = McParticle(
    id: int,
    generatorStatus: int,
    charge: int,
    decayedInTracker: bool,
    inAcceptance: bool)

  /** An association from a truth particle (the "from" end) to a seed (the
      "to" end), both given by identity. */
  datatype Relation = Relation(particle: int, seed: int)

  /** An event collection: its declared LCIO type name and its elements in
      collection order. A seed is nothing but its identity. */
  datatype Collection<T> = Collection(typeName: string, elements: seq<T>)

  // The LCIO type names the processor expects for its three inputs.
  const McParticleType: string := "MCParticle"
  const TrackType: string := "Track"
  const RelationType: string := "LCRelation"

  /** Pointer identity: two elements of a collection that share an id are the
      same object, hence have the same attributes. */
  predicate UniqueIds(ps: seq<McParticle>)
  {
    forall i, j :: 0 <= i < |ps| && 0 <= j < |ps| && ps[i].id == ps[j].id ==> ps[i] == ps[j]
  }
}
