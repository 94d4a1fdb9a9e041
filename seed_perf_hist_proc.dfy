/** The event step of SeedPerfHistProc: select trackable truth particles,
    collect the seeds, match them greedily through the relation collection
    and record the seed, matched-seed and fake-seed counts. The histograms
    are replaced by the log of values that would be filled into them. */
module SeedPerfHistProc {
  import opened LcioEvent

  // ---------------------------------------------------------------------
  // Particle selection
  // ---------------------------------------------------------------------

  /** The four filters a truth particle must pass to be a matching candidate. */
  predicate Selected(p: McParticle)
  {
    p.generatorStatus == 1 && p.charge != 0 && !p.decayedInTracker && p.inAcceptance
  }

  /** The identities of the selected particles of `ps`: exactly those ids
      carried by some element of `ps` that passes every filter. */
  function SelectedIds(ps: seq<McParticle>): (r: set<int>)
    ensures forall id :: id in r <==> exists p :: p in ps && p.id == id && Selected(p)
  {
    if ps == [] then {}
    else
      var init, last := ps[..|ps| - 1], ps[|ps| - 1];
      assert forall p :: p in ps <==> p in init || p == last;
      SelectedIds(init) + (if Selected(last) then {last.id} else {})
  }

  /** The selection loop: particles are inserted one by one, skipping every
      particle that fails one of the filters. */
  method SelectParticles(mcps: seq<McParticle>) returns (mcpSet: set<int>)
    ensures mcpSet == SelectedIds(mcps)
  {
    mcpSet := {};
    for i := 0 to |mcps|
      invariant mcpSet == SelectedIds(mcps[..i])
    {
      assert mcps[..i + 1][..i] == mcps[..i];
      var mcp := mcps[i];
      if mcp.generatorStatus != 1 {
        continue;
      }
      if mcp.charge == 0 {
        continue;
      }
      if mcp.decayedInTracker {
        continue;
      }
      if !mcp.inAcceptance {
        continue;
      }
      mcpSet := mcpSet + {mcp.id};
    }
    assert mcps[..|mcps|] == mcps;
  }

  // ---------------------------------------------------------------------
  // Seed collection
  // ---------------------------------------------------------------------

  /** The set of seeds of a collection: every element, duplicates collapsed. */
  function SeedIds(seeds: seq<int>): (r: set<int>)
    ensures forall s :: s in r <==> s in seeds
    ensures |r| <= |seeds|
  {
    if seeds == [] then {}
    else
      var init, last := seeds[..|seeds| - 1], seeds[|seeds| - 1];
      assert forall s :: s in seeds <==> s in init || s == last;
      SeedIds(init) + {last}
  }

  predicate Distinct(s: seq<int>)
  {
    forall i, j :: 0 <= i < j < |s| ==> s[i] != s[j]
  }

  /** The seed loop: every element of the collection is inserted. */
  method CollectSeeds(seeds: seq<int>) returns (seedSet: set<int>)
    ensures seedSet == SeedIds(seeds)
  {
    seedSet := {};
    for i := 0 to |seeds|
      invariant seedSet == SeedIds(seeds[..i])
    {
      assert seeds[..i + 1][..i] == seeds[..i];
      seedSet := seedSet + {seeds[i]};
    }
    assert seeds[..|seeds|] == seeds;
  }

  lemma DistinctSnoc(init: seq<int>, last: int)
    ensures Distinct(init + [last]) <==> Distinct(init) && last !in init
  {
    var s := init + [last];
    if last in init {
      var k :| 0 <= k < |init| && init[k] == last;
      assert s[k] == s[|init|];
    }
    if !Distinct(init) {
      var i, j :| 0 <= i < j < |init| && init[i] == init[j];
      assert s[i] == s[j];
    }
    if Distinct(init) && last !in init {
      forall i, j | 0 <= i < j < |s| ensures s[i] != s[j] {
        if j == |init| {
          assert s[i] == init[i];
        } else {
          assert s[i] == init[i] && s[j] == init[j];
        }
      }
    }
  }

  /** The recorded seed count equals the collection size exactly when no
      seed occurs twice in it. */
  lemma {:induction false} DistinctSeedCount(seeds: seq<int>)
    ensures |SeedIds(seeds)| == |seeds| <==> Distinct(seeds)
  {
    if seeds != [] {
      var init, last := seeds[..|seeds| - 1], seeds[|seeds| - 1];
      assert seeds == init + [last];
      DistinctSeedCount(init);
      DistinctSnoc(init, last);
      if last in init {
        assert SeedIds(seeds) == SeedIds(init);
      } else {
        assert last !in SeedIds(init);
        assert |SeedIds(seeds)| == |SeedIds(init)| + 1;
      }
    }
  }

  /** A seed that already occurs in the collection adds nothing to the set. */
  lemma DuplicateSeedCollapses(seeds: seq<int>, s: int)
    requires s in seeds
    ensures SeedIds(seeds + [s]) == SeedIds(seeds)
    ensures |SeedIds(seeds + [s])| == |SeedIds(seeds)|
  {
  }

  // ---------------------------------------------------------------------
  // Greedy matching
  // ---------------------------------------------------------------------

  /** The four sets the relation loop works on: the candidate pools that
      still await a match and the sets of matched particles and seeds. */
  datatype Pools = Pools(
    mcpSet: set<int>,
    seedSet: set<int>,
    mcpMatched: set<int>,
    seedMatched: set<int>)

  function InitialPools(selected: set<int>, seeds: set<int>): Pools
  {
    Pools(selected, seeds, {}, {})
  }

  /** One relation: skipped unless its particle is still a candidate; if its
      seed is still a candidate too, both move from pool to matched set. */
  function Step(p: Pools, r: Relation): Pools
  {
    if r.particle !in p.mcpSet then p
    else if r.seed in p.seedSet then
      Pools(p.mcpSet - {r.particle}, p.seedSet - {r.seed},
            p.mcpMatched + {r.particle}, p.seedMatched + {r.seed})
    else p
  }

  /** The relation loop over `rels` in collection order. */
  function Match(p: Pools, rels: seq<Relation>): Pools
    decreases |rels|
  {
    if rels == [] then p
    else Step(Match(p, rels[..|rels| - 1]), rels[|rels| - 1])
  }

  /** The invariant of the relation loop: each pool and its matched set
      split the initial set between them, and every match pairs one
      particle with one seed. */
  predicate Partitioned(selected: set<int>, seeds: set<int>, p: Pools)
  {
    && p.mcpSet !! p.mcpMatched && p.mcpSet + p.mcpMatched == selected
    && p.seedSet !! p.seedMatched && p.seedSet + p.seedMatched == seeds
    && |p.mcpMatched| == |p.seedMatched|
  }

  /** A relation is spent for pools `p` when stepping over it changes nothing. */
  predicate Spent(p: Pools, r: Relation)
  {
    r.particle !in p.mcpSet || r.seed !in p.seedSet
  }

  /** Each relation either leaves all four sets as they are (exactly when it
      is spent) or adds one new particle and one new seed to the matched
      sets, taking them out of the pools. */
  lemma StepEffect(selected: set<int>, seeds: set<int>, p: Pools, r: Relation)
    requires Partitioned(selected, seeds, p)
    ensures Step(p, r) == p <==> Spent(p, r)
    ensures !Spent(p, r) ==>
      && r.particle !in p.mcpMatched && r.seed !in p.seedMatched
      && Step(p, r).mcpMatched == p.mcpMatched + {r.particle}
      && Step(p, r).seedMatched == p.seedMatched + {r.seed}
      && Step(p, r).mcpSet == p.mcpSet - {r.particle}
      && Step(p, r).seedSet == p.seedSet - {r.seed}
      && |Step(p, r).mcpMatched| == |p.mcpMatched| + 1
      && |Step(p, r).seedMatched| == |p.seedMatched| + 1
  {
    if !Spent(p, r) {
      assert r.particle !in Step(p, r).mcpSet;
    }
  }

  /** A relation whose particle was never selected, or whose particle or
      seed has already been matched, changes none of the four sets. */
  lemma MatchedEndIsNoOp(selected: set<int>, seeds: set<int>, p: Pools, r: Relation)
    requires Partitioned(selected, seeds, p)
    requires r.particle !in selected || r.particle in p.mcpMatched || r.seed in p.seedMatched
    ensures Step(p, r) == p
  {
  }

  lemma StepPreservesPartition(selected: set<int>, seeds: set<int>, p: Pools, r: Relation)
    requires Partitioned(selected, seeds, p)
    ensures Partitioned(selected, seeds, Step(p, r))
  {
    StepEffect(selected, seeds, p, r);
  }

  lemma {:induction false} MatchPreservesPartition(selected: set<int>, seeds: set<int>, p: Pools, rels: seq<Relation>)
    requires Partitioned(selected, seeds, p)
    ensures Partitioned(selected, seeds, Match(p, rels))
    decreases |rels|
  {
    if rels != [] {
      MatchPreservesPartition(selected, seeds, p, rels[..|rels| - 1]);
      StepPreservesPartition(selected, seeds, Match(p, rels[..|rels| - 1]), rels[|rels| - 1]);
    }
  }

  /** Under the invariant, matched seeds and fake seeds add up to all seeds,
      matched and unmatched particles to all selected particles, and both
      matched sets have the same size. */
  lemma PartitionCounts(selected: set<int>, seeds: set<int>, p: Pools)
    requires Partitioned(selected, seeds, p)
    ensures |p.seedMatched| + |p.seedSet| == |seeds|
    ensures |p.mcpMatched| + |p.mcpSet| == |selected|
    ensures p.mcpMatched <= selected && p.seedMatched <= seeds
  {
  }

  /** The pools only shrink and the matched sets only grow. */
  lemma {:induction false} MatchMonotone(p: Pools, rels: seq<Relation>)
    ensures Match(p, rels).mcpSet <= p.mcpSet && Match(p, rels).seedSet <= p.seedSet
    ensures p.mcpMatched <= Match(p, rels).mcpMatched && p.seedMatched <= Match(p, rels).seedMatched
    decreases |rels|
  {
    if rels != [] {
      MatchMonotone(p, rels[..|rels| - 1]);
    }
  }

  /** Every relation already walked over is spent: a later copy of it (a
      repeated relation) is a no-op. */
  lemma {:induction false} WalkedRelationsAreSpent(p: Pools, rels: seq<Relation>, r: Relation)
    requires r in rels
    ensures Spent(Match(p, rels), r)
    ensures Step(Match(p, rels), r) == Match(p, rels)
    decreases |rels|
  {
    var init, last := rels[..|rels| - 1], rels[|rels| - 1];
    var q := Match(p, init);
    assert Match(p, rels) == Step(q, last);
    if r == last {
      // Either r was spent already or it has just taken its particle.
    } else {
      assert r in init by {
        var k :| 0 <= k < |rels| && rels[k] == r;
        assert k < |init| && init[k] == r;
      }
      WalkedRelationsAreSpent(p, init, r);
    }
  }

  /** Every matched seed is the seed of a relation in `rels` whose particle
      is matched. */
  predicate SeedsFromRelations(rels: seq<Relation>, m: Pools)
  {
    forall s :: s in m.seedMatched ==>
      exists i :: 0 <= i < |rels| && rels[i].seed == s && rels[i].particle in m.mcpMatched
  }

  /** Every matched particle is the particle of a relation in `rels` whose
      seed is matched. */
  predicate ParticlesFromRelations(rels: seq<Relation>, m: Pools)
  {
    forall x :: x in m.mcpMatched ==>
      exists i :: 0 <= i < |rels| && rels[i].particle == x && rels[i].seed in m.seedMatched
  }

  lemma StepSeedsFromRelations(init: seq<Relation>, q: Pools, last: Relation)
    requires SeedsFromRelations(init, q)
    ensures SeedsFromRelations(init + [last], Step(q, last))
  {
    var rels, q' := init + [last], Step(q, last);
    forall s | s in q'.seedMatched
      ensures exists i :: 0 <= i < |rels| && rels[i].seed == s && rels[i].particle in q'.mcpMatched
    {
      if s in q.seedMatched {
        var i :| 0 <= i < |init| && init[i].seed == s && init[i].particle in q.mcpMatched;
        assert rels[i] == init[i] && init[i].particle in q'.mcpMatched;
      } else {
        assert rels[|init|] == last && last.seed == s && last.particle in q'.mcpMatched;
      }
    }
  }

  lemma StepParticlesFromRelations(init: seq<Relation>, q: Pools, last: Relation)
    requires ParticlesFromRelations(init, q)
    ensures ParticlesFromRelations(init + [last], Step(q, last))
  {
    var rels, q' := init + [last], Step(q, last);
    forall x | x in q'.mcpMatched
      ensures exists i :: 0 <= i < |rels| && rels[i].particle == x && rels[i].seed in q'.seedMatched
    {
      if x in q.mcpMatched {
        var i :| 0 <= i < |init| && init[i].particle == x && init[i].seed in q.seedMatched;
        assert rels[i] == init[i] && init[i].seed in q'.seedMatched;
      } else {
        assert rels[|init|] == last && last.particle == x && last.seed in q'.seedMatched;
      }
    }
  }

  /** Matches come from relations: starting with nothing matched, whatever
      the loop matches is an end of some relation whose other end is
      matched too. */
  lemma {:induction false} MatchesComeFromRelations(p: Pools, rels: seq<Relation>)
    requires p.mcpMatched == {} && p.seedMatched == {}
    ensures SeedsFromRelations(rels, Match(p, rels))
    ensures ParticlesFromRelations(rels, Match(p, rels))
    decreases |rels|
  {
    if rels != [] {
      var init, last := rels[..|rels| - 1], rels[|rels| - 1];
      assert rels == init + [last];
      MatchesComeFromRelations(p, init);
      StepSeedsFromRelations(init, Match(p, init), last);
      StepParticlesFromRelations(init, Match(p, init), last);
    }
  }

  /** The relations whose particle lies in `candidates`, in order. */
  function RelationsOf(rels: seq<Relation>, candidates: set<int>): (r: seq<Relation>)
    ensures forall x :: x in r <==> x in rels && x.particle in candidates
    decreases |rels|
  {
    if rels == [] then []
    else
      var init, last := rels[..|rels| - 1], rels[|rels| - 1];
      assert forall x :: x in rels <==> x in init || x == last;
      RelationsOf(init, candidates) + (if last.particle in candidates then [last] else [])
  }

  /** A relation whose truth particle was not selected never contributes:
      dropping all such relations gives the same four sets. */
  lemma {:induction false} UnselectedRelationsIgnored(p: Pools, rels: seq<Relation>, candidates: set<int>)
    requires p.mcpSet <= candidates
    ensures Match(p, rels) == Match(p, RelationsOf(rels, candidates))
    decreases |rels|
  {
    if rels != [] {
      var init, last := rels[..|rels| - 1], rels[|rels| - 1];
      var kept := RelationsOf(init, candidates);
      UnselectedRelationsIgnored(p, init, candidates);
      if last.particle in candidates {
        assert RelationsOf(rels, candidates) == kept + [last];
        assert (kept + [last])[..|kept|] == kept;
      } else {
        assert RelationsOf(rels, candidates) == kept;
        MatchMonotone(p, init);
      }
    }
  }

  /** The relation loop: walks the relations in order, erasing from the pools
      and inserting into the matched sets. */
  method MatchRelations(selected: set<int>, seeds: set<int>, rels: seq<Relation>)
    returns (mcpSet: set<int>, seedSet: set<int>, mcpMatched: set<int>, seedMatched: set<int>)
    ensures Pools(mcpSet, seedSet, mcpMatched, seedMatched) == Match(InitialPools(selected, seeds), rels)
    ensures Partitioned(selected, seeds, Pools(mcpSet, seedSet, mcpMatched, seedMatched))
  {
    mcpSet, seedSet := selected, seeds;
    mcpMatched, seedMatched := {}, {};
    for i := 0 to |rels|
      invariant Pools(mcpSet, seedSet, mcpMatched, seedMatched) == Match(InitialPools(selected, seeds), rels[..i])
      invariant Partitioned(selected, seeds, Pools(mcpSet, seedSet, mcpMatched, seedMatched))
    {
      assert rels[..i + 1][..i] == rels[..i];
      StepPreservesPartition(selected, seeds, Pools(mcpSet, seedSet, mcpMatched, seedMatched), rels[i]);
      var mcp, seed := rels[i].particle, rels[i].seed;
      if mcp !in mcpSet {
        continue;
      }
      if seed in seedSet {
        mcpMatched := mcpMatched + {mcp};
        seedMatched := seedMatched + {seed};
        mcpSet := mcpSet - {mcp};
        seedSet := seedSet - {seed};
      }
    }
    assert rels[..|rels|] == rels;
  }

  // ---------------------------------------------------------------------
  // The whole event
  // ---------------------------------------------------------------------

  /** A value filled into one of the three count histograms. */
  datatype Fill =
    | NumberOfSeeds(n: nat)
    | NumberOfMatchedSeeds(n: nat)
    | NumberOfFakeSeeds(n: nat)

  /** What processing one event records: the count fills in order, the
      particles whose kinematics are filled, and the exception message if
      the event was aborted. */
  datatype EventOutcome = EventOutcome(fills: seq<Fill>, matchedParticles: set<int>, thrown: Option<string>)

  function InvalidType(typeName: string): string
  {
    "Invalid collection type: " + typeName
  }

  /** The event step as a function of the three collections. */
  function EventSpec(mcpCol: Collection<McParticle>, seedCol: Collection<int>, relCol: Collection<Relation>): EventOutcome
  {
    if mcpCol.typeName != McParticleType then EventOutcome([], {}, Some(InvalidType(mcpCol.typeName)))
    else if seedCol.typeName != TrackType then EventOutcome([], {}, Some(InvalidType(seedCol.typeName)))
    else
      var seeds := SeedIds(seedCol.elements);
      if relCol.typeName != RelationType then
        EventOutcome([NumberOfSeeds(|seeds|)], {}, Some(InvalidType(relCol.typeName)))
      else
        var m := Match(InitialPools(SelectedIds(mcpCol.elements), seeds), relCol.elements);
        EventOutcome([NumberOfSeeds(|seeds|), NumberOfMatchedSeeds(|m.seedMatched|), NumberOfFakeSeeds(|m.seedSet|)],
                     m.mcpMatched, None)
  }

  /** Processing one event: the type checks, the three loops and the fills,
      in the order the processor performs them. */
  method ProcessEvent(mcpCol: Collection<McParticle>, seedCol: Collection<int>, relCol: Collection<Relation>)
    returns (outcome: EventOutcome)
    ensures outcome == EventSpec(mcpCol, seedCol, relCol)
  {
    if mcpCol.typeName != McParticleType {
      return EventOutcome([], {}, Some(InvalidType(mcpCol.typeName)));
    }
    var mcpSet := SelectParticles(mcpCol.elements);

    if seedCol.typeName != TrackType {
      return EventOutcome([], {}, Some(InvalidType(seedCol.typeName)));
    }
    var seedSet := CollectSeeds(seedCol.elements);
    var fills := [NumberOfSeeds(|seedSet|)];

    if relCol.typeName != RelationType {
      return EventOutcome(fills, {}, Some(InvalidType(relCol.typeName)));
    }
    var mcpLeft, seedLeft, mcpMatched, seedMatched := MatchRelations(mcpSet, seedSet, relCol.elements);
    fills := fills + [NumberOfMatchedSeeds(|seedMatched|), NumberOfFakeSeeds(|seedLeft|)];
    outcome := EventOutcome(fills, mcpMatched, None);
  }

  /** On every event that completes, the three counts are filled in order,
      the first is the number of distinct seeds, matched plus fake seeds
      add up to it, and the matched particles are selected ones, as many as
      the matched seeds. An event completes exactly when all three
      collections have the expected type. */
  lemma EventCounts(mcpCol: Collection<McParticle>, seedCol: Collection<int>, relCol: Collection<Relation>)
    ensures var o := EventSpec(mcpCol, seedCol, relCol);
      && (o.thrown.None? <==>
           mcpCol.typeName == McParticleType && seedCol.typeName == TrackType && relCol.typeName == RelationType)
      && (o.thrown.None? ==>
           && |o.fills| == 3
           && o.fills[0] == NumberOfSeeds(|SeedIds(seedCol.elements)|)
           && o.fills[1].NumberOfMatchedSeeds? && o.fills[2].NumberOfFakeSeeds?
           && o.fills[1].n + o.fills[2].n == o.fills[0].n
           && o.fills[1].n == |o.matchedParticles|
           && o.matchedParticles <= SelectedIds(mcpCol.elements))
  {
    var selected, seeds := SelectedIds(mcpCol.elements), SeedIds(seedCol.elements);
    MatchPreservesPartition(selected, seeds, InitialPools(selected, seeds), relCol.elements);
    PartitionCounts(selected, seeds, Match(InitialPools(selected, seeds), relCol.elements));
  }

  /** A wrong type on the particle or seed collection aborts before any count
      is filled; a wrong type on the relation collection aborts after the
      seed count only. */
  lemma FillOrderOnError(mcpCol: Collection<McParticle>, seedCol: Collection<int>, relCol: Collection<Relation>)
    ensures var o := EventSpec(mcpCol, seedCol, relCol);
      && (mcpCol.typeName != McParticleType ==>
           o.fills == [] && o.thrown == Some(InvalidType(mcpCol.typeName)))
      && (mcpCol.typeName == McParticleType && seedCol.typeName != TrackType ==>
           o.fills == [] && o.thrown == Some(InvalidType(seedCol.typeName)))
      && (mcpCol.typeName == McParticleType && seedCol.typeName == TrackType && relCol.typeName != RelationType ==>
           o.fills == [NumberOfSeeds(|SeedIds(seedCol.elements)|)] && o.thrown == Some(InvalidType(relCol.typeName)))
      && (o.thrown.Some? ==> o.matchedParticles == {})
  {
  }

  /** A truth particle that fails the selection (in particular one outside
      the angular acceptance) is never counted as matched. */
  lemma UnselectedNeverMatched(mcpCol: Collection<McParticle>, seedCol: Collection<int>, relCol: Collection<Relation>, p: McParticle)
    requires UniqueIds(mcpCol.elements)
    requires p in mcpCol.elements && !Selected(p)
    ensures p.id !in EventSpec(mcpCol, seedCol, relCol).matchedParticles
  {
    EventCounts(mcpCol, seedCol, relCol);
  }

  /** Three truth particles of which two are in acceptance, three seeds and
      two relations pairing the accepted particles with two of the seeds:
      two matched seeds and one fake. */
  lemma TwoMatchedOneFake()
    ensures var o := EventSpec(
        Collection(McParticleType, ExampleParticles()),
        Collection(TrackType, [10, 20, 30]),
        Collection(RelationType, [Relation(1, 10), Relation(2, 20)]));
      o == EventOutcome([NumberOfSeeds(3), NumberOfMatchedSeeds(2), NumberOfFakeSeeds(1)], {1, 2}, None)
  {
    ExampleSelection();
    ExampleSeeds();
    ExampleMatch();
  }

  function ExampleParticles(): seq<McParticle>
  {
    [McParticle(1, 1, 1, false, true), McParticle(2, 1, -1, false, true), McParticle(3, 1, 1, false, false)]
  }

  lemma ExampleSelection()
    ensures SelectedIds(ExampleParticles()) == {1, 2}
  {
    var ps := ExampleParticles();
    assert ps[..1][..0] == [] && ps[..2][..1] == ps[..1] && ps[..3][..2] == ps[..2] && ps[..3] == ps;
    assert SelectedIds(ps[..1]) == {1};
    assert SelectedIds(ps[..2]) == {1, 2};
  }

  lemma ExampleSeeds()
    ensures SeedIds([10, 20, 30]) == {10, 20, 30} && |SeedIds([10, 20, 30])| == 3
  {
    var ss := [10, 20, 30];
    assert ss[..1][..0] == [] && ss[..2][..1] == ss[..1] && ss[..3][..2] == ss[..2] && ss[..3] == ss;
    assert SeedIds(ss[..1]) == {10};
    assert SeedIds(ss[..2]) == {10, 20};
  }

  lemma ExampleMatch()
    ensures Match(InitialPools({1, 2}, {10, 20, 30}), [Relation(1, 10), Relation(2, 20)])
         == Pools({}, {30}, {1, 2}, {10, 20})
    ensures |{30}| == 1 && |{10, 20}| == 2
  {
    var rels := [Relation(1, 10), Relation(2, 20)];
    assert rels[..1][..0] == [] && rels[..2][..1] == rels[..1] && rels[..2] == rels;
    var p0 := InitialPools({1, 2}, {10, 20, 30});
    assert Match(p0, rels[..1]) == Pools({2}, {20, 30}, {1}, {10});
  }
}
