# Seed-finding performance: truth-to-seed matching

This project models the event step of the `SeedPerfHistProc` Marlin processor
(TrackPerf). For each event the processor does four things:

1. It reads the truth-particle (`MCParticle`), seed (`Track`) and relation
   (`LCRelation`) collections.
2. It keeps the trackable truth particles: generator status 1, non-zero
   charge, not decayed in the tracker, and inside the polar-angle acceptance.
3. It puts all seeds into a set.
4. It walks the relations in order and greedily pairs each still-unmatched
   selected particle with its still-unmatched seed.

It then fills three counts: the number of seeds, the number of matched seeds
and the number of fake seeds (the seeds left unmatched).

The project has two files:

- `lcio_event.dfy` (module `LcioEvent`) holds the input data. A particle's,
  seed's or relation end's pointer identity is an integer id. A collection is
  its declared type name plus its elements.
- `seed_perf_hist_proc.dfy` (module `SeedPerfHistProc`) holds the event step.
  - Three loop methods follow the three loops of `processEvent`:
    `SelectParticles`, `CollectSeeds` and `MatchRelations`. They work on
    `set<int>` locals with `insert`/`erase` as the source does.
  - Each loop method is proved equal to a specification function:
    `SelectedIds`, `SeedIds` or `Match` (built from `Step`).
  - `ProcessEvent` does the type checks, calls the loops and records the fills
    in source order. It is proved equal to `EventSpec`.
  - The lemmas state the matching's properties about those functions.

Histogram fills become an `EventOutcome`, which holds:

- the ordered list of count fills;
- the set of matched particles (the particles whose kinematics would be
  histogrammed);
- the exception message, if the event was aborted.

## Model

| member | source | states |
|---|---|---|
| `SeedPerfHistProc.SelectedIds` | src/SeedPerfHistProc.cxx:72-98 | an id is selected iff some particle of the collection with that id has generator status 1, non-zero charge, is not decayed in the tracker and is in acceptance; nothing else is inserted |
| `SeedPerfHistProc.SelectParticles` | src/SeedPerfHistProc.cxx:72-98 | the filtering loop with its `continue` skips produces exactly the selected set |
| `SeedPerfHistProc.SeedIds` | src/SeedPerfHistProc.cxx:108-114 | a seed is in the seed set iff it is an element of the collection; the set is never larger than the collection |
| `SeedPerfHistProc.CollectSeeds` | src/SeedPerfHistProc.cxx:108-114 | the insertion loop produces exactly the seed set |
| `SeedPerfHistProc.DistinctSeedCount` | src/SeedPerfHistProc.cxx:108-116 | the recorded seed count equals the collection length iff no seed occurs twice |
| `SeedPerfHistProc.DuplicateSeedCollapses` | src/SeedPerfHistProc.cxx:108-116 | appending a seed already present changes neither the seed set nor the count |
| `SeedPerfHistProc.StepEffect` | src/SeedPerfHistProc.cxx:133-143 | a relation leaves the four sets unchanged iff its particle or seed is no longer a candidate; otherwise exactly that particle and that seed move from the pools to the matched sets, each matched set growing by one |
| `SeedPerfHistProc.MatchedEndIsNoOp` | src/SeedPerfHistProc.cxx:133-143 | a relation whose particle was not selected, or whose particle or seed is already matched, is a no-op |
| `SeedPerfHistProc.StepPreservesPartition` | src/SeedPerfHistProc.cxx:133-143 | one relation keeps pools and matched sets disjoint, keeps their unions equal to the initial sets and keeps the two matched sets the same size |
| `SeedPerfHistProc.MatchPreservesPartition` | src/SeedPerfHistProc.cxx:126-145 | the whole relation loop keeps that partition invariant |
| `SeedPerfHistProc.PartitionCounts` | src/SeedPerfHistProc.cxx:147-148 | under the invariant, matched seeds plus fake seeds equal all seeds, matched plus unmatched particles equal all selected particles, and matched particles are selected ones |
| `SeedPerfHistProc.MatchMonotone` | src/SeedPerfHistProc.cxx:137-143 | the candidate pools only shrink and the matched sets only grow |
| `SeedPerfHistProc.WalkedRelationsAreSpent` | src/SeedPerfHistProc.cxx:126-145 | after the loop has passed a relation, that relation is spent, so a repeated relation is a no-op |
| `SeedPerfHistProc.MatchesComeFromRelations` | src/SeedPerfHistProc.cxx:126-142 | every matched seed is the seed of some relation whose particle is matched, and every matched particle the particle of some relation whose seed is matched |
| `SeedPerfHistProc.UnselectedRelationsIgnored` | src/SeedPerfHistProc.cxx:133-135 | dropping every relation whose particle is not a candidate yields the same four sets: such relations never contribute |
| `SeedPerfHistProc.MatchRelations` | src/SeedPerfHistProc.cxx:119-145 | the relation loop with its `insert`/`erase` steps computes `Match` from the initial pools and ends in the partition invariant |
| `SeedPerfHistProc.ProcessEvent` | src/SeedPerfHistProc.cxx:63-148 | the type checks, the three loops and the fills, in order, produce `EventSpec` |
| `SeedPerfHistProc.EventCounts` | src/SeedPerfHistProc.cxx:108-148 | an event completes iff all three collection types are right; then the three counts are filled in order, the first is the number of distinct seeds, matched plus fake equals it, and the matched particles are selected ones, as many as the matched seeds |
| `SeedPerfHistProc.FillOrderOnError` | src/SeedPerfHistProc.cxx:66-124 | a wrong particle or seed collection type aborts before any fill; a wrong relation collection type aborts after the seed count only; each carries the "Invalid collection type: " message; an aborted event matches nothing |
| `SeedPerfHistProc.UnselectedNeverMatched` | src/SeedPerfHistProc.cxx:77-142 | a particle that fails a selection filter, e.g. lies outside the angular acceptance, is never among the matched particles |
| `SeedPerfHistProc.TwoMatchedOneFake` | src/SeedPerfHistProc.cxx:63-148 | three particles (two in acceptance), three seeds and two matching relations give three seeds, two matched and one fake |

## Left out

- Floating-point kinematics: not modelled. This covers the pt, lambda, phi,
  eta and theta of each matched particle and their histogram fills
  (src/SeedPerfHistProc.cxx:150-166). The model returns only the set of
  particles whose kinematics would be filled.
- The acceptance cut: not modelled as arithmetic. It compares
  `|atan2(pz, pt)|` with `75./180*3.14` in floating point
  (src/SeedPerfHistProc.cxx:90-95). The model gives each particle an opaque
  `inAcceptance` flag instead.
- Charge: modelled as an integer with only the non-zero test. The source's
  value is a float, so NaN and signed zero are not modelled.
- Histograms, `init` and the AIDA tree setup
  (src/SeedPerfHistProc.cxx:39-59): left out. Fills become the values
  recorded in `EventOutcome.fills`.
- Processor registration, parameters and the empty hooks `processRunHeader`,
  `check` and `end` (src/SeedPerfHistProc.cxx:17-37, 61, 170-171): host
  framework plumbing, left out.
- LCIO collection access: foreign library calls. This covers a missing
  collection, which makes the library throw, and the `static_cast`s of
  elements. The model takes each collection as a value: its type name and its
  already-typed elements.
- The LCIO type-name constants are library values, not part of this model's
  source. The model uses "MCParticle", "Track" and "LCRelation".
- The `uint32_t`/`int` loop counters are not bounded, since a collection
  large enough to overflow them is outside the model.
- src/TrackHists.cxx: float track quantities and histogram fills only, not
  part of this model.
- TrackPerf/SeedPerfHistProc.hxx: declarations only.
- SeedPerfHistProc.UnselectedNeverMatched: needs `UniqueIds`. Two elements
  with the same id are one object in the source, so they cannot differ in
  their attributes.
