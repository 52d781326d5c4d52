/** The interaction-dataset builder: for each project, positives from two fused
    hit lists, hard negatives from negated queries, then random negatives. */
module InteractionBuilder {
  import opened Wrappers
  import opened SkillRecords
  import opened VectorPoints
  import Constants
  import OfflineEncoder

  const TopK: nat := 50
  const NegK: nat := 5
  const RandNegK: nat := 10
  const HybridAlpha: real := 0.65
  const ScoreThreshold: real := 0.3

  datatype Interaction = Interaction(userId: string, projectId: string, rating: real)

  /** `next((h.score for h in hits if h.id == id), 0.0)`. */
  function FirstScore(hits: seq<Hit>, id: Key): real {
    if hits == [] then 0.0
    else if hits[0].id == id then hits[0].score
    else FirstScore(hits[1..], id)
  }

  /** The score of the first hit carrying the id. */
  lemma {:induction false} FirstScoreAt(hits: seq<Hit>, id: Key, i: nat)
    requires i < |hits| && hits[i].id == id
    requires forall j | 0 <= j < i :: hits[j].id != id
    ensures FirstScore(hits, id) == hits[i].score
  {
    if i > 0 {
      assert hits[0].id != id;
      assert forall j | 0 <= j < i - 1 :: hits[1..][j] == hits[j + 1];
      FirstScoreAt(hits[1..], id, i - 1);
    }
  }

  /** 0.0 when no hit carries the id. */
  lemma {:induction false} FirstScoreAbsent(hits: seq<Hit>, id: Key)
    requires forall i | 0 <= i < |hits| :: hits[i].id != id
    ensures FirstScore(hits, id) == 0.0
  {
    if hits != [] {
      assert forall i | 0 <= i < |hits| - 1 :: hits[1..][i] == hits[i + 1];
      FirstScoreAbsent(hits[1..], id);
    }
  }

  /** The fused score of one point id. */
  function Hybrid(id: Key, skillHits: seq<Hit>, descHits: seq<Hit>): real {
    HybridAlpha * FirstScore(skillHits, id) + (1.0 - HybridAlpha) * FirstScore(descHits, id)
  }

  /** The set of point ids of some hits. */
  function Ids(hits: seq<Hit>): set<Key> {
    if hits == [] then {} else Ids(hits[..|hits| - 1]) + {hits[|hits| - 1].id}
  }

  lemma {:induction false} InIds(hits: seq<Hit>, id: Key)
    ensures id in Ids(hits) <==> exists i | 0 <= i < |hits| :: hits[i].id == id
  {
    if hits != [] {
      var n := |hits| - 1;
      InIds(hits[..n], id);
      if id in Ids(hits[..n]) {
        var i :| 0 <= i < n && hits[..n][i].id == id;
        assert hits[i].id == id;
      }
      if exists i | 0 <= i < |hits| :: hits[i].id == id {
        var i :| 0 <= i < |hits| && hits[i].id == id;
        if i < n { assert hits[..n][i].id == id; }
      }
    }
  }

  lemma IdsOfConcat(a: seq<Hit>, b: seq<Hit>)
    ensures Ids(a + b) == Ids(a) + Ids(b)
  {
    forall id
      ensures id in Ids(a + b) <==> id in Ids(a) + Ids(b)
    {
      InIds(a + b, id);
      InIds(a, id);
      InIds(b, id);
      if id in Ids(a + b) {
        var i :| 0 <= i < |a + b| && (a + b)[i].id == id;
        if i >= |a| { assert b[i - |a|].id == id; }
      }
      if id in Ids(a) {
        var i :| 0 <= i < |a| && a[i].id == id;
        assert (a + b)[i].id == id;
      }
      if id in Ids(b) {
        var i :| 0 <= i < |b| && b[i].id == id;
        assert (a + b)[|a| + i].id == id;
      }
    }
  }

  /** The hits the positive loop records, in order: each candidate whose id is not yet
      seen and whose hybrid score reaches the threshold. */
  function Positives(cands: seq<Hit>, skillHits: seq<Hit>, descHits: seq<Hit>): seq<Hit> {
    if cands == [] then []
    else
      var prev := Positives(cands[..|cands| - 1], skillHits, descHits);
      var h := cands[|cands| - 1];
      if h.id in Ids(prev) || Hybrid(h.id, skillHits, descHits) < ScoreThreshold then prev else prev + [h]
  }

  /** The hits a hard-negative loop records: each one whose id is not yet seen. */
  function FreshHits(cands: seq<Hit>, seen: set<Key>): seq<Hit> {
    if cands == [] then []
    else
      var prev := FreshHits(cands[..|cands| - 1], seen);
      var h := cands[|cands| - 1];
      if h.id in seen + Ids(prev) then prev else prev + [h]
  }

  predicate DistinctIds(hits: seq<Hit>) {
    forall i, j | 0 <= i < j < |hits| :: hits[i].id != hits[j].id
  }

  /** No point id is recorded twice as a positive. */
  lemma {:induction false} PositivesDistinct(cands: seq<Hit>, skillHits: seq<Hit>, descHits: seq<Hit>)
    ensures DistinctIds(Positives(cands, skillHits, descHits))
  {
    if cands != [] {
      var prev := Positives(cands[..|cands| - 1], skillHits, descHits);
      PositivesDistinct(cands[..|cands| - 1], skillHits, descHits);
      InIds(prev, cands[|cands| - 1].id);
    }
  }

  /** Every positive is a candidate whose hybrid score reaches the threshold. */
  lemma {:induction false} PositivesSound(cands: seq<Hit>, skillHits: seq<Hit>, descHits: seq<Hit>)
    ensures forall h | h in Positives(cands, skillHits, descHits) ::
      h in cands && Hybrid(h.id, skillHits, descHits) >= ScoreThreshold
  {
    if cands != [] {
      var n := |cands| - 1;
      PositivesSound(cands[..n], skillHits, descHits);
      assert forall h | h in cands[..n] :: h in cands;
    }
  }

  /** Every candidate whose hybrid score reaches the threshold has its id recorded
      (the boundary is inclusive). */
  lemma {:induction false} PositivesComplete(cands: seq<Hit>, skillHits: seq<Hit>, descHits: seq<Hit>)
    ensures forall i | 0 <= i < |cands| && Hybrid(cands[i].id, skillHits, descHits) >= ScoreThreshold ::
      cands[i].id in Ids(Positives(cands, skillHits, descHits))
  {
    if cands != [] {
      var n := |cands| - 1;
      var prev := Positives(cands[..n], skillHits, descHits);
      PositivesComplete(cands[..n], skillHits, descHits);
      forall i | 0 <= i < n && Hybrid(cands[i].id, skillHits, descHits) >= ScoreThreshold
        ensures cands[i].id in Ids(Positives(cands, skillHits, descHits))
      {
        assert cands[..n][i] == cands[i];
        assert cands[i].id in Ids(prev);
      }
    }
  }

  /** A candidate below the threshold is never recorded, so it stays unseen. */
  lemma BelowThresholdStaysUnseen(cands: seq<Hit>, skillHits: seq<Hit>, descHits: seq<Hit>, id: Key)
    requires Hybrid(id, skillHits, descHits) < ScoreThreshold
    ensures id !in Ids(Positives(cands, skillHits, descHits))
  {
    var pos := Positives(cands, skillHits, descHits);
    PositivesSound(cands, skillHits, descHits);
    InIds(pos, id);
  }

  /** The recorded hit for an id is the first candidate carrying that id. */
  lemma {:induction false} PositivesFirstWins(cands: seq<Hit>, skillHits: seq<Hit>, descHits: seq<Hit>)
    ensures forall k | 0 <= k < |Positives(cands, skillHits, descHits)| ::
      exists j | 0 <= j < |cands| :: cands[j] == Positives(cands, skillHits, descHits)[k] &&
        forall j' | 0 <= j' < j :: cands[j'].id != cands[j].id
  {
    if cands != [] {
      var n := |cands| - 1;
      var prev := Positives(cands[..n], skillHits, descHits);
      var pos := Positives(cands, skillHits, descHits);
      var h := cands[n];
      PositivesFirstWins(cands[..n], skillHits, descHits);
      forall k | 0 <= k < |pos|
        ensures exists j | 0 <= j < |cands| :: cands[j] == pos[k] && forall j' | 0 <= j' < j :: cands[j'].id != cands[j].id
      {
        if k < |prev| {
          assert pos[k] == prev[k];
          var j :| 0 <= j < n && cands[..n][j] == prev[k] && forall j' | 0 <= j' < j :: cands[..n][j'].id != cands[..n][j].id;
          assert cands[j] == pos[k];
          assert forall j' | 0 <= j' < j :: cands[j'].id != cands[j].id by {
            forall j' | 0 <= j' < j ensures cands[j'].id != cands[j].id {
              assert cands[..n][j'] == cands[j'];
            }
          }
        } else {
          assert pos[k] == h && h.id !in Ids(prev) && Hybrid(h.id, skillHits, descHits) >= ScoreThreshold;
          PositivesComplete(cands[..n], skillHits, descHits);
          forall j' | 0 <= j' < n
            ensures cands[j'].id != h.id
          {
            assert cands[..n][j'] == cands[j'];
          }
          assert cands[n] == pos[k];
        }
      }
    } else {
      assert Positives(cands, skillHits, descHits) == [];
    }
  }

  /** Hard negatives: distinct ids, none already seen, each one a candidate. */
  lemma {:induction false} FreshHitsProperties(cands: seq<Hit>, seen: set<Key>)
    ensures DistinctIds(FreshHits(cands, seen))
    ensures Ids(FreshHits(cands, seen)) !! seen
    ensures forall h | h in FreshHits(cands, seen) :: h in cands
  {
    if cands != [] {
      var n := |cands| - 1;
      var prev := FreshHits(cands[..n], seen);
      var h := cands[n];
      FreshHitsProperties(cands[..n], seen);
      assert forall x | x in cands[..n] :: x in cands;
      if h.id !in seen + Ids(prev) {
        assert FreshHits(cands, seen) == prev + [h];
        IdsSnoc(prev, h);
        InIds(prev, h.id);
      }
    }
  }

  /** Every candidate's id ends up seen: already seen, or recorded as a hard negative. */
  lemma {:induction false} FreshHitsCover(cands: seq<Hit>, seen: set<Key>)
    ensures Ids(cands) <= seen + Ids(FreshHits(cands, seen))
  {
    if cands != [] {
      var n := |cands| - 1;
      var prev := FreshHits(cands[..n], seen);
      var h := cands[n];
      FreshHitsCover(cands[..n], seen);
      assert cands == cands[..n] + [h];
      IdsSnoc(cands[..n], h);
      if h.id !in seen + Ids(prev) {
        IdsSnoc(prev, h);
      }
    }
  }

  // ---- one project ----

  function ProjectSkills(proj: Entity): seq<SkillDict> { proj.skills.GetOr([]) }

  function ProjectText(proj: Entity): string { proj.description.GetOr("") }

  function SkillHits(proj: Entity, search: Search): seq<Hit> {
    search(SkillCollection, SkillQuery(ProjectSkills(proj), false), TopK)
  }

  function DescHits(proj: Entity, search: Search, embed: Embedder): seq<Hit> {
    search(DescCollection, TextQuery(embed, ProjectText(proj), false), TopK)
  }

  function PositiveHits(proj: Entity, search: Search, embed: Embedder): seq<Hit> {
    var hs, hd := SkillHits(proj, search), DescHits(proj, search, embed);
    Positives(hs + hd, hs, hd)
  }

  function HardSkillHits(proj: Entity, search: Search, embed: Embedder): seq<Hit> {
    FreshHits(search(SkillCollection, SkillQuery(ProjectSkills(proj), true), NegK),
              Ids(PositiveHits(proj, search, embed)))
  }

  function HardDescHits(proj: Entity, search: Search, embed: Embedder): seq<Hit> {
    FreshHits(search(DescCollection, TextQuery(embed, ProjectText(proj), true), NegK),
              Ids(PositiveHits(proj, search, embed)) + Ids(HardSkillHits(proj, search, embed)))
  }

  /** All hits recorded for a project before random sampling, in emission order. */
  function EmittedHits(proj: Entity, search: Search, embed: Embedder): seq<Hit> {
    PositiveHits(proj, search, embed) + HardSkillHits(proj, search, embed) + HardDescHits(proj, search, embed)
  }

  function PositiveRows(pos: seq<Hit>, skillHits: seq<Hit>, descHits: seq<Hit>, projectId: string): (rows: seq<Interaction>)
    ensures |rows| == |pos|
  {
    if pos == [] then []
    else
      var h := pos[|pos| - 1];
      PositiveRows(pos[..|pos| - 1], skillHits, descHits, projectId) + [Interaction(h.empId, projectId, Hybrid(h.id, skillHits, descHits))]
  }

  function NegativeRows(negs: seq<Hit>, projectId: string): (rows: seq<Interaction>)
    ensures |rows| == |negs|
  {
    if negs == [] then []
    else NegativeRows(negs[..|negs| - 1], projectId) + [Interaction(negs[|negs| - 1].empId, projectId, 0.0)]
  }

  /** The deterministic head of a project's block: positives, then both hard-negative lists. */
  function FixedBlock(proj: Entity, search: Search, embed: Embedder): seq<Interaction> {
    var hs, hd := SkillHits(proj, search), DescHits(proj, search, embed);
    PositiveRows(PositiveHits(proj, search, embed), hs, hd, proj.fullId)
      + NegativeRows(HardSkillHits(proj, search, embed), proj.fullId)
      + NegativeRows(HardDescHits(proj, search, embed), proj.fullId)
  }

  // ---- random negatives ----

  function Min(a: nat, b: nat): nat { if a < b then a else b }

  /** `set(all_ids) - exclude_ids`: the employee keys are strings, so only `Str` members
      of the exclusion set can remove anything. */
  function Pool(employees: seq<Entity>, exclude: set<Key>): set<string> {
    set e | e in employees && Str(e.fullId) !in exclude :: e.fullId
  }

  /** An admissible outcome of `random.sample(pool, min(num, len(pool)))`. */
  predicate IsSample(picked: seq<string>, pool: set<string>, num: nat) {
    |picked| == Min(num, |pool|) && Constants.Distinct(picked) && forall i | 0 <= i < |picked| :: picked[i] in pool
  }

  /** `sample_random_negatives`: any min(num, |pool|) distinct keys of the pool. */
  method SampleRandomNegatives(employees: seq<Entity>, exclude: set<Key>, num: nat) returns (picked: seq<string>)
    ensures IsSample(picked, Pool(employees, exclude), num)
  {
    var pool := Pool(employees, exclude);
    var count := Min(num, |pool|);
    picked := [];
    var rest := pool;
    while |picked| < count
      invariant |picked| <= count
      invariant rest <= pool && |rest| == |pool| - |picked|
      invariant forall i | 0 <= i < |picked| :: picked[i] in pool && picked[i] !in rest
      invariant Constants.Distinct(picked)
      decreases count - |picked|
    {
      var x :| x in rest;
      picked := picked + [x];
      rest := rest - {x};
    }
  }

  /** The random-negative rows of a project, in sample order. */
  function RandomRows(picked: seq<string>, projectId: string): (rows: seq<Interaction>)
    ensures |rows| == |picked|
    ensures forall i | 0 <= i < |rows| :: rows[i] == Interaction(picked[i], projectId, 0.0)
  {
    seq(|picked|, i requires 0 <= i < |picked| => Interaction(picked[i], projectId, 0.0))
  }

  /** A project's whole block: the fixed head followed by the rows of `picked`, a sample
      of the employees whose keys are not in the final `seen_users`. */
  predicate ProjectBlock(block: seq<Interaction>, proj: Entity, employees: seq<Entity>, search: Search, embed: Embedder,
                         picked: seq<string>) {
    IsSample(picked, Pool(employees, Ids(EmittedHits(proj, search, embed))), RandNegK) &&
    block == FixedBlock(proj, search, embed) + RandomRows(picked, proj.fullId)
  }

  lemma IdsSnoc(hits: seq<Hit>, h: Hit)
    ensures Ids(hits + [h]) == Ids(hits) + {h.id}
  {
    assert (hits + [h])[..|hits|] == hits;
  }

  lemma PositivesStep(cands: seq<Hit>, k: nat, hitsSkills: seq<Hit>, hitsDesc: seq<Hit>)
    requires k < |cands|
    ensures var prev := Positives(cands[..k], hitsSkills, hitsDesc);
      Positives(cands[..k + 1], hitsSkills, hitsDesc) ==
        if cands[k].id in Ids(prev) || Hybrid(cands[k].id, hitsSkills, hitsDesc) < ScoreThreshold then prev
        else prev + [cands[k]]
  {
    assert cands[..k + 1][..k] == cands[..k];
  }

  lemma PositiveRowsSnoc(pos: seq<Hit>, h: Hit, hitsSkills: seq<Hit>, hitsDesc: seq<Hit>, projectId: string)
    ensures PositiveRows(pos + [h], hitsSkills, hitsDesc, projectId) ==
      PositiveRows(pos, hitsSkills, hitsDesc, projectId) + [Interaction(h.empId, projectId, Hybrid(h.id, hitsSkills, hitsDesc))]
  {
    assert (pos + [h])[..|pos|] == pos;
  }

  lemma FreshHitsStep(negs: seq<Hit>, k: nat, seen: set<Key>)
    requires k < |negs|
    ensures var prev := FreshHits(negs[..k], seen);
      FreshHits(negs[..k + 1], seen) == if negs[k].id in seen + Ids(prev) then prev else prev + [negs[k]]
  {
    assert negs[..k + 1][..k] == negs[..k];
  }

  lemma NegativeRowsSnoc(negs: seq<Hit>, h: Hit, projectId: string)
    ensures NegativeRows(negs + [h], projectId) == NegativeRows(negs, projectId) + [Interaction(h.empId, projectId, 0.0)]
  {
    assert (negs + [h])[..|negs|] == negs;
  }

  /** One step of the positive loop, in terms of the state before it. */
  lemma PositiveLoopStep(cands: seq<Hit>, k: nat, hitsSkills: seq<Hit>, hitsDesc: seq<Hit>, projectId: string,
                         rowsIn: seq<Interaction>, rows: seq<Interaction>, seen: set<Key>)
    requires k < |cands|
    requires rows == rowsIn + PositiveRows(Positives(cands[..k], hitsSkills, hitsDesc), hitsSkills, hitsDesc, projectId)
    requires seen == Ids(Positives(cands[..k], hitsSkills, hitsDesc))
    ensures var next := Positives(cands[..k + 1], hitsSkills, hitsDesc);
      if cands[k].id in seen || Hybrid(cands[k].id, hitsSkills, hitsDesc) < ScoreThreshold then
        rows == rowsIn + PositiveRows(next, hitsSkills, hitsDesc, projectId) && seen == Ids(next)
      else
        rows + [Interaction(cands[k].empId, projectId, Hybrid(cands[k].id, hitsSkills, hitsDesc))]
          == rowsIn + PositiveRows(next, hitsSkills, hitsDesc, projectId) &&
        seen + {cands[k].id} == Ids(next)
  {
    var prev := Positives(cands[..k], hitsSkills, hitsDesc);
    var next := Positives(cands[..k + 1], hitsSkills, hitsDesc);
    PositivesStep(cands, k, hitsSkills, hitsDesc);
    if cands[k].id in seen || Hybrid(cands[k].id, hitsSkills, hitsDesc) < ScoreThreshold {
      assert next == prev;
    } else {
      assert next == prev + [cands[k]];
      PositiveRowsSnoc(prev, cands[k], hitsSkills, hitsDesc, projectId);
      assert rows + [Interaction(cands[k].empId, projectId, Hybrid(cands[k].id, hitsSkills, hitsDesc))]
          == rowsIn + PositiveRows(next, hitsSkills, hitsDesc, projectId);
      IdsSnoc(prev, cands[k]);
      assert seen + {cands[k].id} == Ids(next);
    }
  }

  /** The positive loop: appends one row per recorded positive and records its id. */
  method PositivePass(cands: seq<Hit>, hitsSkills: seq<Hit>, hitsDesc: seq<Hit>, projectId: string, rowsIn: seq<Interaction>)
    returns (rows: seq<Interaction>, seen: set<Key>)
    ensures rows == rowsIn + PositiveRows(Positives(cands, hitsSkills, hitsDesc), hitsSkills, hitsDesc, projectId)
    ensures seen == Ids(Positives(cands, hitsSkills, hitsDesc))
  {
    rows := rowsIn;
    seen := {};
    for k := 0 to |cands|
      invariant rows == rowsIn + PositiveRows(Positives(cands[..k], hitsSkills, hitsDesc), hitsSkills, hitsDesc, projectId)
      invariant seen == Ids(Positives(cands[..k], hitsSkills, hitsDesc))
    {
      var hit := cands[k];
      PositiveLoopStep(cands, k, hitsSkills, hitsDesc, projectId, rowsIn, rows, seen);
      if hit.id in seen {
        continue;
      }
      var sScore := FirstScore(hitsSkills, hit.id);
      var dScore := FirstScore(hitsDesc, hit.id);
      var hybrid := HybridAlpha * sScore + (1.0 - HybridAlpha) * dScore;
      if hybrid >= ScoreThreshold {
        rows := rows + [Interaction(hit.empId, projectId, hybrid)];
        seen := seen + {hit.id};
      }
    }
    assert cands[..|cands|] == cands;
  }

  /** One step of a hard-negative loop, in terms of the state before it. */
  lemma NegativeLoopStep(negs: seq<Hit>, k: nat, seenIn: set<Key>, projectId: string,
                         rowsIn: seq<Interaction>, rows: seq<Interaction>, seen: set<Key>)
    requires k < |negs|
    requires rows == rowsIn + NegativeRows(FreshHits(negs[..k], seenIn), projectId)
    requires seen == seenIn + Ids(FreshHits(negs[..k], seenIn))
    ensures var next := FreshHits(negs[..k + 1], seenIn);
      if negs[k].id in seen then
        rows == rowsIn + NegativeRows(next, projectId) && seen == seenIn + Ids(next)
      else
        rows + [Interaction(negs[k].empId, projectId, 0.0)] == rowsIn + NegativeRows(next, projectId) &&
        seen + {negs[k].id} == seenIn + Ids(next)
  {
    var prev := FreshHits(negs[..k], seenIn);
    var next := FreshHits(negs[..k + 1], seenIn);
    FreshHitsStep(negs, k, seenIn);
    if negs[k].id in seen {
      assert next == prev;
    } else {
      assert next == prev + [negs[k]];
      NegativeRowsSnoc(prev, negs[k], projectId);
      assert rows + [Interaction(negs[k].empId, projectId, 0.0)] == rowsIn + NegativeRows(next, projectId);
      IdsSnoc(prev, negs[k]);
      assert seen + {negs[k].id} == seenIn + Ids(next);
    }
  }

  /** A hard-negative loop: appends a 0.0 row for each hit whose id is not yet seen. */
  method HardNegativePass(negs: seq<Hit>, seenIn: set<Key>, projectId: string, rowsIn: seq<Interaction>)
    returns (rows: seq<Interaction>, seen: set<Key>)
    ensures rows == rowsIn + NegativeRows(FreshHits(negs, seenIn), projectId)
    ensures seen == seenIn + Ids(FreshHits(negs, seenIn))
  {
    rows := rowsIn;
    seen := seenIn;
    for k := 0 to |negs|
      invariant rows == rowsIn + NegativeRows(FreshHits(negs[..k], seenIn), projectId)
      invariant seen == seenIn + Ids(FreshHits(negs[..k], seenIn))
    {
      var neg := negs[k];
      NegativeLoopStep(negs, k, seenIn, projectId, rowsIn, rows, seen);
      if neg.id in seen {
        continue;
      }
      rows := rows + [Interaction(neg.empId, projectId, 0.0)];
      seen := seen + {neg.id};
    }
    assert negs[..|negs|] == negs;
  }

  /** The random-negative loop. */
  method RandomPass(picked: seq<string>, projectId: string, rowsIn: seq<Interaction>) returns (rows: seq<Interaction>)
    ensures rows == rowsIn + RandomRows(picked, projectId)
  {
    rows := rowsIn;
    for k := 0 to |picked|
      invariant rows == rowsIn + RandomRows(picked[..k], projectId)
    {
      rows := rows + [Interaction(picked[k], projectId, 0.0)];
    }
    assert picked[..|picked|] == picked;
  }

  /** The searches and the three deterministic loops of one project: the rows they
      append and the ids left in `seen_users`. */
  method FixedPasses(proj: Entity, search: Search, embed: Embedder) returns (block: seq<Interaction>, seen: set<Key>)
    ensures block == FixedBlock(proj, search, embed)
    ensures seen == Ids(EmittedHits(proj, search, embed))
  {
    var skills := ProjectSkills(proj);
    var desc := ProjectText(proj);
    var skillVec := OfflineEncoder.MakeSkillVector(skills);
    var textVec := EmbedOrZero(embed(desc));
    assert skillVec == SkillQuery(skills, false);
    assert textVec == TextQuery(embed, desc, false);
    var hitsSkills := search(SkillCollection, skillVec, TopK);
    var hitsDesc := search(DescCollection, textVec, TopK);
    assert hitsSkills == SkillHits(proj, search);
    assert hitsDesc == DescHits(proj, search, embed);
    ghost var pos := PositiveHits(proj, search, embed);
    ghost var hardS := HardSkillHits(proj, search, embed);
    ghost var hardD := HardDescHits(proj, search, embed);
    block, seen := PositivePass(hitsSkills + hitsDesc, hitsSkills, hitsDesc, proj.fullId, []);
    assert block == PositiveRows(pos, hitsSkills, hitsDesc, proj.fullId);
    assert seen == Ids(pos);
    var negSkills := search(SkillCollection, Negate(skillVec), NegK);
    assert Negate(skillVec) == SkillQuery(skills, true);
    block, seen := HardNegativePass(negSkills, seen, proj.fullId, block);
    assert seen == Ids(pos) + Ids(hardS);
    var negDesc := search(DescCollection, Negate(textVec), NegK);
    assert Negate(textVec) == TextQuery(embed, desc, true);
    block, seen := HardNegativePass(negDesc, seen, proj.fullId, block);
    IdsOfConcat(pos, hardS);
    IdsOfConcat(pos + hardS, hardD);
  }

  /** One iteration of the project loop of `generate_interactions`. */
  method ProjectInteractions(proj: Entity, employees: seq<Entity>, search: Search, embed: Embedder)
    returns (block: seq<Interaction>, ghost sample: seq<string>)
    ensures ProjectBlock(block, proj, employees, search, embed, sample)
    ensures FixedBlock(proj, search, embed) <= block
    ensures |block| <= |FixedBlock(proj, search, embed)| + RandNegK
    ensures forall i | 0 <= i < |block| :: block[i].projectId == proj.fullId
  {
    var seen: set<Key>;
    block, seen := FixedPasses(proj, search, embed);
    var picked := SampleRandomNegatives(employees, seen, RandNegK);
    block := RandomPass(picked, proj.fullId, block);
    sample := picked;
    BlockRows(block, proj, employees, search, embed, sample);
  }

  lemma {:induction false} DistinctIdsConcat(a: seq<Hit>, b: seq<Hit>)
    requires DistinctIds(a) && DistinctIds(b) && Ids(a) !! Ids(b)
    ensures DistinctIds(a + b)
  {
    forall i, j | 0 <= i < j < |a + b|
      ensures (a + b)[i].id != (a + b)[j].id
    {
      if i < |a| && j >= |a| {
        InIds(a, a[i].id);
        InIds(b, b[j - |a|].id);
      }
    }
  }

  /** Within one project no point id is emitted twice across the positives and
      both hard-negative lists. */
  lemma EmittedIdsDistinct(proj: Entity, search: Search, embed: Embedder)
    ensures DistinctIds(EmittedHits(proj, search, embed))
  {
    var pos := PositiveHits(proj, search, embed);
    var hardS := HardSkillHits(proj, search, embed);
    var hardD := HardDescHits(proj, search, embed);
    var hs, hd := SkillHits(proj, search), DescHits(proj, search, embed);
    PositivesDistinct(hs + hd, hs, hd);
    FreshHitsProperties(search(SkillCollection, SkillQuery(ProjectSkills(proj), true), NegK), Ids(pos));
    FreshHitsProperties(search(DescCollection, TextQuery(embed, ProjectText(proj), true), NegK), Ids(pos) + Ids(hardS));
    DistinctIdsConcat(pos, hardS);
    IdsOfConcat(pos, hardS);
    DistinctIdsConcat(pos + hardS, hardD);
  }

  lemma {:induction false} PositiveRowsAt(pos: seq<Hit>, hitsSkills: seq<Hit>, hitsDesc: seq<Hit>, projectId: string, i: nat)
    requires i < |pos|
    ensures PositiveRows(pos, hitsSkills, hitsDesc, projectId)[i] ==
      Interaction(pos[i].empId, projectId, Hybrid(pos[i].id, hitsSkills, hitsDesc))
  {
    var n := |pos| - 1;
    assert pos[..n] + [pos[n]] == pos;
    if i < n {
      PositiveRowsAt(pos[..n], hitsSkills, hitsDesc, projectId, i);
    }
  }

  lemma {:induction false} NegativeRowsAt(negs: seq<Hit>, projectId: string, i: nat)
    requires i < |negs|
    ensures NegativeRows(negs, projectId)[i] == Interaction(negs[i].empId, projectId, 0.0)
  {
    var n := |negs| - 1;
    if i < n {
      NegativeRowsAt(negs[..n], projectId, i);
    }
  }

  /** Every row of a project's block carries that project's id; the first rows are the
      positives, rated by their hybrid score (at least the threshold), and every later
      row is rated 0.0. */
  lemma BlockRows(block: seq<Interaction>, proj: Entity, employees: seq<Entity>, search: Search, embed: Embedder,
                  picked: seq<string>)
    requires ProjectBlock(block, proj, employees, search, embed, picked)
    ensures |PositiveHits(proj, search, embed)| <= |block|
    ensures forall i | 0 <= i < |block| :: block[i].projectId == proj.fullId
    ensures forall i | 0 <= i < |PositiveHits(proj, search, embed)| ::
      block[i].userId == PositiveHits(proj, search, embed)[i].empId && block[i].rating >= ScoreThreshold
    ensures forall i | |PositiveHits(proj, search, embed)| <= i < |block| :: block[i].rating == 0.0
  {
    var hs, hd := SkillHits(proj, search), DescHits(proj, search, embed);
    var pos := PositiveHits(proj, search, embed);
    var hardS := HardSkillHits(proj, search, embed);
    var hardD := HardDescHits(proj, search, embed);
    var p1 := |pos|;
    var p2 := p1 + |hardS|;
    var p3 := p2 + |hardD|;
    PositivesSound(hs + hd, hs, hd);
    forall i | 0 <= i < |block|
      ensures block[i].projectId == proj.fullId
      ensures i < p1 ==> block[i].userId == pos[i].empId && block[i].rating >= ScoreThreshold
      ensures p1 <= i ==> block[i].rating == 0.0
    {
      if i < p1 {
        PositiveRowsAt(pos, hs, hd, proj.fullId, i);
        assert pos[i] in pos;
      } else if i < p2 {
        NegativeRowsAt(hardS, proj.fullId, i - p1);
      } else if i < p3 {
        NegativeRowsAt(hardD, proj.fullId, i - p2);
      }
    }
  }

  /** The exclusion set the random pool receives holds point ids; when none of them is a
      string key, every employee stays in the pool, including those just recorded. */
  lemma {:induction false} PoolKeepsRecordedEmployees(employees: seq<Entity>, hits: seq<Hit>)
    requires forall i | 0 <= i < |hits| :: !hits[i].id.Str?
    ensures Pool(employees, Ids(hits)) == set e | e in employees :: e.fullId
  {
    forall e | e in employees
      ensures Str(e.fullId) !in Ids(hits)
    {
      InIds(hits, Str(e.fullId));
    }
  }

  /** With hits from both lists at 0.3, the hybrid score is exactly 0.3 and the single
      employee is recorded once; at 0.29 it is not recorded at all. */
  lemma ThresholdIsInclusive()
    ensures var h := Hit(Int(7), 0.3, "employee_7");
      Positives([h, h], [h], [h]) == [h]
    ensures var h := Hit(Int(7), 0.29, "employee_7");
      Positives([h, h], [h], [h]) == []
  {
    var h := Hit(Int(7), 0.3, "employee_7");
    assert Hybrid(h.id, [h], [h]) == 0.3;
    assert [h, h][..1] == [h];
    assert Positives([h], [h], [h]) == [h];
    var g := Hit(Int(7), 0.29, "employee_7");
    assert Hybrid(g.id, [g], [g]) < 0.3;
    assert [g, g][..1] == [g];
    assert Positives([g], [g], [g]) == [];
  }

  /** An id found only by the skill search gets 0.65 of its skill score, one found only
      by the text search 0.35 of its text score. */
  lemma HybridOfOneSidedHit(id: Key, hitsSkills: seq<Hit>, hitsDesc: seq<Hit>)
    ensures (forall i | 0 <= i < |hitsDesc| :: hitsDesc[i].id != id) ==>
      Hybrid(id, hitsSkills, hitsDesc) == 0.65 * FirstScore(hitsSkills, id)
    ensures (forall i | 0 <= i < |hitsSkills| :: hitsSkills[i].id != id) ==>
      Hybrid(id, hitsSkills, hitsDesc) == 0.35 * FirstScore(hitsDesc, id)
  {
    if forall i | 0 <= i < |hitsDesc| :: hitsDesc[i].id != id {
      FirstScoreAbsent(hitsDesc, id);
    }
    if forall i | 0 <= i < |hitsSkills| :: hitsSkills[i].id != id {
      FirstScoreAbsent(hitsSkills, id);
    }
  }

  /** The concatenation of per-project blocks, in order. */
  function Flatten(blocks: seq<seq<Interaction>>): seq<Interaction> {
    if blocks == [] then [] else Flatten(blocks[..|blocks| - 1]) + blocks[|blocks| - 1]
  }

  /** Block i is a block of project i with sample i, for every i. */
  predicate AllBlocks(blocks: seq<seq<Interaction>>, projects: seq<Entity>, samples: seq<seq<string>>,
                      employees: seq<Entity>, search: Search, embed: Embedder)
    requires |blocks| == |projects| == |samples|
  {
    if blocks == [] then true
    else
      var n := |blocks| - 1;
      AllBlocks(blocks[..n], projects[..n], samples[..n], employees, search, embed) &&
      ProjectBlock(blocks[n], projects[n], employees, search, embed, samples[n])
  }

  lemma AllBlocksSnoc(blocks: seq<seq<Interaction>>, block: seq<Interaction>, projects: seq<Entity>, p: nat,
                      samples: seq<seq<string>>, sample: seq<string>, employees: seq<Entity>, search: Search, embed: Embedder)
    requires |blocks| == |samples| == p < |projects|
    requires AllBlocks(blocks, projects[..p], samples, employees, search, embed)
    requires ProjectBlock(block, projects[p], employees, search, embed, sample)
    ensures AllBlocks(blocks + [block], projects[..p + 1], samples + [sample], employees, search, embed)
    ensures Flatten(blocks + [block]) == Flatten(blocks) + block
  {
    assert (blocks + [block])[..p] == blocks;
    assert (samples + [sample])[..p] == samples;
    assert projects[..p + 1][..p] == projects[..p];
  }

  /** `generate_interactions`: one block per project, in input project order. */
  method GenerateInteractions(employees: seq<Entity>, projects: seq<Entity>, search: Search, embed: Embedder)
    returns (interactions: seq<Interaction>, ghost blocks: seq<seq<Interaction>>, ghost samples: seq<seq<string>>)
    ensures |blocks| == |projects| == |samples| && interactions == Flatten(blocks)
    ensures AllBlocks(blocks, projects, samples, employees, search, embed)
    ensures forall r | r in interactions :: exists i | 0 <= i < |projects| :: r.projectId == projects[i].fullId
  {
    interactions := [];
    blocks := [];
    samples := [];
    for p := 0 to |projects|
      invariant |blocks| == p == |samples| && interactions == Flatten(blocks)
      invariant AllBlocks(blocks, projects[..p], samples, employees, search, embed)
    {
      var block;
      ghost var sample;
      block, sample := ProjectInteractions(projects[p], employees, search, embed);
      AllBlocksSnoc(blocks, block, projects, p, samples, sample, employees, search, embed);
      interactions := interactions + block;
      blocks := blocks + [block];
      samples := samples + [sample];
    }
    assert projects[..|projects|] == projects;
    GeneratedRowsCarryProjectIds(blocks, projects, samples, employees, search, embed);
  }

  /** Each generated row belongs to one of the projects: the rows of block i carry
      project i's id. */
  lemma {:induction false} GeneratedRowsCarryProjectIds(blocks: seq<seq<Interaction>>, projects: seq<Entity>,
                                                        samples: seq<seq<string>>, employees: seq<Entity>,
                                                        search: Search, embed: Embedder)
    requires |blocks| == |projects| == |samples|
    requires AllBlocks(blocks, projects, samples, employees, search, embed)
    ensures forall r | r in Flatten(blocks) :: exists i | 0 <= i < |projects| :: r.projectId == projects[i].fullId
  {
    if blocks != [] {
      var n := |blocks| - 1;
      GeneratedRowsCarryProjectIds(blocks[..n], projects[..n], samples[..n], employees, search, embed);
      BlockRows(blocks[n], projects[n], employees, search, embed, samples[n]);
      forall r | r in Flatten(blocks)
        ensures exists i | 0 <= i < |projects| :: r.projectId == projects[i].fullId
      {
        if r in Flatten(blocks[..n]) {
          var i :| 0 <= i < n && r.projectId == projects[..n][i].fullId;
          assert r.projectId == projects[i].fullId;
        } else {
          var j :| 0 <= j < |blocks[n]| && blocks[n][j] == r;
          assert r.projectId == projects[n].fullId;
        }
      }
    }
  }
}
