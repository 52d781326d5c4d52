/** The inference service: the online skill encoder, top-K ranking of the scorer's
    predictions and the enrichment of the ranking with project metadata. */
module Predict {
  import opened Wrappers
  import opened SkillRecords
  import Constants

  // ---- the online encoder ----

  datatype EncodeError =
    | KeyMissing(key: string)          // `s["skill_name"]` and friends raise KeyError
    | InvalidSkillEntry(entry: SkillDict)

  /** Why `build_user_vector` rejects one record, if it does: the three keys are read in
      order, then name and level are checked. */
  function RecordFault(sk: SkillDict): Option<EncodeError> {
    if sk.skillName.None? then Some(KeyMissing("skill_name"))
    else if sk.level.None? then Some(KeyMissing("level"))
    else if sk.months.None? then Some(KeyMissing("months"))
    else if sk.skillName.value !in Constants.Skill2Idx || sk.level.value !in Constants.LevelWeight then
      Some(InvalidSkillEntry(sk))
    else None
  }

  /** An accepted record has all three keys and a known name and level. */
  lemma Accepted(sk: SkillDict)
    requires RecordFault(sk).None?
    ensures sk.skillName.Some? && sk.level.Some? && sk.months.Some?
    ensures sk.skillName.value in Constants.Skill2Idx && sk.level.value in Constants.LevelWeight
  {
  }

  /** `months * LEVEL_WEIGHT[level]` for an accepted record. */
  function Weighted(sk: SkillDict): real
    requires RecordFault(sk).None?
  {
    sk.months.value as real * Constants.LevelWeight[sk.level.value]
  }

  function Zeros(n: nat): (v: seq<real>)
    ensures |v| == n && forall i | 0 <= i < n :: v[i] == 0.0
  {
    seq(n, _ => 0.0)
  }

  /** An accepted record overwrites its category's slot with its weighted months. */
  function Accept(v: seq<real>, sk: SkillDict): (w: seq<real>)
    requires |v| == Constants.NumCategories && RecordFault(sk).None?
    ensures |w| == |v|
  {
    Constants.Skill2IdxInvertsCategories();
    v[Constants.Skill2Idx[sk.skillName.value] := Weighted(sk)]
  }

  /** The outcome `build_user_vector` is specified to have: record by record, the first
      rejected record raises, and an accepted one overwrites its category's slot. */
  function OnlineVector(skills: seq<SkillDict>): (r: Result<seq<real>, EncodeError>)
    ensures r.Success? ==> |r.value| == Constants.NumCategories
  {
    if skills == [] then Success(Zeros(Constants.NumCategories))
    else
      var sk := skills[|skills| - 1];
      match OnlineVector(skills[..|skills| - 1])
      case Failure(e) => Failure(e)
      case Success(v) =>
        match RecordFault(sk)
        case Some(e) => Failure(e)
        case None => Success(Accept(v, sk))
  }

  /** One more record: a rejected one fails the encoding, an accepted one is written. */
  lemma OnlineVectorStep(skills: seq<SkillDict>, k: nat)
    requires k < |skills| && OnlineVector(skills[..k]).Success?
    ensures RecordFault(skills[k]).Some? ==> OnlineVector(skills[..k + 1]) == Failure(RecordFault(skills[k]).value)
    ensures RecordFault(skills[k]).None? ==>
      OnlineVector(skills[..k + 1]) == Success(Accept(OnlineVector(skills[..k]).value, skills[k]))
  {
    assert skills[..k + 1][..k] == skills[..k];
  }

  /** The value the online encoder leaves in the slot of `category`: that of the last
      accepted record with that name, 0.0 when there is none. */
  function LastWrite(skills: seq<SkillDict>, category: string): real
    requires forall i | 0 <= i < |skills| :: RecordFault(skills[i]).None?
  {
    if skills == [] then 0.0
    else
      var n := |skills| - 1;
      if skills[n].skillName == Some(category) then Weighted(skills[n])
      else
        assert forall i | 0 <= i < n :: skills[..n][i] == skills[i];
        LastWrite(skills[..n], category)
  }

  /** No record with that name leaves the slot at 0.0. */
  lemma {:induction false} LastWriteAbsent(skills: seq<SkillDict>, category: string)
    requires forall i | 0 <= i < |skills| :: RecordFault(skills[i]).None?
    requires forall i | 0 <= i < |skills| :: skills[i].skillName != Some(category)
    ensures LastWrite(skills, category) == 0.0
  {
    if skills != [] {
      var n := |skills| - 1;
      assert forall i | 0 <= i < n :: skills[..n][i] == skills[i];
      LastWriteAbsent(skills[..n], category);
    }
  }

  /** Otherwise the slot holds the weight of the last record with that name. */
  lemma {:induction false} LastWriteIsLast(skills: seq<SkillDict>, category: string, i: nat)
    requires forall i | 0 <= i < |skills| :: RecordFault(skills[i]).None?
    requires i < |skills| && skills[i].skillName == Some(category)
    requires forall j | i < j < |skills| :: skills[j].skillName != Some(category)
    ensures LastWrite(skills, category) == Weighted(skills[i])
  {
    var n := |skills| - 1;
    if i < n {
      assert forall j | 0 <= j < n :: skills[..n][j] == skills[j];
      LastWriteIsLast(skills[..n], category, i);
    }
  }

  /** `build_user_vector` fails exactly when some record is rejected, and then with the
      fault of the first rejected record. */
  lemma {:induction false} OnlineVectorFailure(skills: seq<SkillDict>)
    ensures OnlineVector(skills).Failure? <==> exists i | 0 <= i < |skills| :: RecordFault(skills[i]).Some?
    ensures OnlineVector(skills).Failure? ==>
      exists i | 0 <= i < |skills| :: RecordFault(skills[i]) == Some(OnlineVector(skills).error) &&
        forall j | 0 <= j < i :: RecordFault(skills[j]).None?
  {
    if skills != [] {
      var n := |skills| - 1;
      OnlineVectorFailure(skills[..n]);
      assert forall i | 0 <= i < n :: skills[..n][i] == skills[i];
      if OnlineVector(skills[..n]).Failure? {
        var i :| 0 <= i < n && RecordFault(skills[..n][i]) == Some(OnlineVector(skills[..n]).error) &&
          forall j | 0 <= j < i :: RecordFault(skills[..n][j]).None?;
        assert RecordFault(skills[i]) == Some(OnlineVector(skills).error);
      } else if RecordFault(skills[n]).Some? {
        assert RecordFault(skills[n]) == Some(OnlineVector(skills).error);
      } else {
        forall i | 0 <= i < |skills|
          ensures RecordFault(skills[i]).None?
        {
          if i < n { assert RecordFault(skills[..n][i]).None?; }
        }
      }
    }
  }

  /** Slot by slot, one accepted record changes only its own category. */
  lemma SlotStep(skills: seq<SkillDict>, c: nat)
    requires forall i | 0 <= i < |skills| :: RecordFault(skills[i]).None?
    requires skills != [] && c < Constants.NumCategories
    requires OnlineVector(skills[..|skills| - 1]).Success?
    ensures OnlineVector(skills).Success?
    ensures OnlineVector(skills).value[c] ==
      if skills[|skills| - 1].skillName == Some(Constants.SkillCategories[c]) then Weighted(skills[|skills| - 1])
      else OnlineVector(skills[..|skills| - 1]).value[c]
  {
    var n := |skills| - 1;
    var sk := skills[n];
    assert skills[..n + 1] == skills;
    OnlineVectorStep(skills, n);
    Accepted(sk);
    Constants.SlotOfName(sk.skillName.value, c);
  }

  /** When every record is accepted, slot i holds the last record named SKILL_CATEGORIES[i]
      (assignment, not accumulation), and 0.0 if there is none. */
  lemma {:induction false} OnlineVectorSlots(skills: seq<SkillDict>)
    requires forall i | 0 <= i < |skills| :: RecordFault(skills[i]).None?
    ensures OnlineVector(skills).Success?
    ensures forall c | 0 <= c < Constants.NumCategories ::
      OnlineVector(skills).value[c] == LastWrite(skills, Constants.SkillCategories[c])
  {
    if skills != [] {
      var n := |skills| - 1;
      assert forall i | 0 <= i < n :: skills[..n][i] == skills[i];
      OnlineVectorSlots(skills[..n]);
      forall c | 0 <= c < Constants.NumCategories
        ensures OnlineVector(skills).value[c] == LastWrite(skills, Constants.SkillCategories[c])
      {
        SlotStep(skills, c);
      }
    }
  }

  /** An empty skill list encodes to the zero vector. */
  lemma EmptyEncodesToZero()
    ensures OnlineVector([]) == Success(Zeros(Constants.NumCategories))
  {
  }

  // ---- argsort and top-K selection ----

  /** Indices in range, listed in ascending order of their predictions. */
  predicate SortedBy(preds: seq<real>, s: seq<nat>) {
    && (forall k | 0 <= k < |s| :: s[k] < |preds|)
    && (forall a, b | 0 <= a < b < |s| :: preds[s[a]] <= preds[s[b]])
  }

  /** An admissible result of `np.argsort(preds)`: a permutation of the indices that lists
      the predictions in ascending order; ties may come in any order. */
  predicate IsArgSort(order: seq<nat>, preds: seq<real>) {
    && |order| == |preds|
    && Constants.Distinct(order)
    && SortedBy(preds, order)
    && forall x | 0 <= x < |preds| :: x in order
  }

  /** Insertion of index i after every index whose prediction is at most preds[i]. */
  function Insert(preds: seq<real>, s: seq<nat>, i: nat): (r: seq<nat>)
    requires i < |preds| && SortedBy(preds, s)
    ensures |r| == |s| + 1
    ensures forall x: nat :: x in r <==> x in s || x == i
    ensures SortedBy(preds, r)
    ensures Constants.Distinct(s) && i !in s ==> Constants.Distinct(r)
  {
    if s == [] then [i]
    else if preds[i] < preds[s[0]] then [i] + s
    else
      var rest := Insert(preds, s[1..], i);
      DistinctTail(s);
      assert forall x | x in s[1..] :: x in s;
      assert forall k | 0 <= k < |rest| :: preds[s[0]] <= preds[rest[k]] by {
        forall k | 0 <= k < |rest| ensures preds[s[0]] <= preds[rest[k]] {
          assert rest[k] in rest;
          if rest[k] != i {
            var j :| 0 <= j < |s[1..]| && s[1..][j] == rest[k];
            assert s[1 + j] == rest[k];
          }
        }
      }
      [s[0]] + rest
  }

  lemma DistinctTail(s: seq<nat>)
    requires s != []
    ensures Constants.Distinct(s) ==> Constants.Distinct(s[1..]) && s[0] !in s[1..]
  {
    if Constants.Distinct(s) {
      forall j | 0 <= j < |s[1..]|
        ensures s[1..][j] != s[0]
      {
        assert s[1..][j] == s[j + 1];
      }
    }
  }

  function ArgSortPrefix(preds: seq<real>, m: nat): (r: seq<nat>)
    requires m <= |preds|
    ensures |r| == m && SortedBy(preds, r) && Constants.Distinct(r)
    ensures forall x: nat :: x in r <==> x < m
  {
    if m == 0 then [] else Insert(preds, ArgSortPrefix(preds, m - 1), m - 1)
  }

  /** One deterministic argsort (a stable one). */
  function ArgSort(preds: seq<real>): (order: seq<nat>)
    ensures IsArgSort(order, preds)
  {
    ArgSortPrefix(preds, |preds|)
  }

  /** Where the Python slice `a[-top_k:]` starts in a list of length n. */
  function SliceStart(n: nat, topK: int): (start: nat)
    ensures start <= n
  {
    if topK > 0 then (if topK < n then n - topK else 0)
    else if -topK < n then -topK
    else n
  }

  function Reverse<T>(s: seq<T>): (r: seq<T>)
    ensures |r| == |s| && forall i | 0 <= i < |s| :: r[i] == s[|s| - 1 - i]
  {
    seq(|s|, i requires 0 <= i < |s| => s[|s| - 1 - i])
  }

  /** `argsort(preds)[-top_k:][::-1]` for a given argsort order. */
  function Selected(order: seq<nat>, topK: int): seq<nat> {
    Reverse(order[SliceStart(|order|, topK)..])
  }

  /** `preds[idxs]`. */
  function Gather(preds: seq<real>, idxs: seq<nat>): (scores: seq<real>)
    requires forall k | 0 <= k < |idxs| :: idxs[k] < |preds|
    ensures |scores| == |idxs| && forall k | 0 <= k < |idxs| :: scores[k] == preds[idxs[k]]
  {
    seq(|idxs|, k requires 0 <= k < |idxs| => preds[idxs[k]])
  }

  /** How many indices `[-top_k:]` keeps out of n: min(top_k, n) for a positive top_k,
      all n for 0 (`[-0:]` is the whole array), and n - |top_k| (at least 0) for a negative one. */
  function TopCount(n: nat, topK: int): nat {
    if topK > 0 then (if topK < n then topK else n)
    else if topK == 0 then n
    else if n + topK > 0 then n + topK else 0
  }

  /** What the ranking of `recommend` promises about its indices. */
  predicate IsTopK(idxs: seq<nat>, preds: seq<real>, topK: int) {
    && |idxs| == TopCount(|preds|, topK)
    && Constants.Distinct(idxs)
    && (forall a | 0 <= a < |idxs| :: idxs[a] < |preds|)
    && (forall a, b | 0 <= a < b < |idxs| :: preds[idxs[a]] >= preds[idxs[b]])
    && (forall x, a | 0 <= x < |preds| && x !in idxs && 0 <= a < |idxs| :: preds[x] <= preds[idxs[a]])
  }

  /** Whatever order argsort gives ties, the selection is a top-K ranking. */
  lemma TopKOfAnyArgSort(preds: seq<real>, order: seq<nat>, topK: int)
    requires IsArgSort(order, preds)
    ensures IsTopK(Selected(order, topK), preds, topK)
  {
    var n := |order|;
    var start := SliceStart(n, topK);
    var idxs := Selected(order, topK);
    assert forall a | 0 <= a < |idxs| :: idxs[a] == order[n - 1 - a];
    assert forall q | start <= q < n :: order[q] in idxs by {
      forall q | start <= q < n ensures order[q] in idxs {
        assert idxs[n - 1 - q] == order[q];
      }
    }
    forall x, a | 0 <= x < |preds| && x !in idxs && 0 <= a < |idxs|
      ensures preds[x] <= preds[idxs[a]]
    {
      assert x in order;
      var p :| 0 <= p < n && order[p] == x;
    }
  }

  /** predictions [0.9, 0.5, 0.7]: top 2 is [0, 2]; top 0 is every index, best first. */
  lemma RankingExample()
    ensures Selected(ArgSort([0.9, 0.5, 0.7]), 2) == [0, 2]
    ensures Selected(ArgSort([0.9, 0.5, 0.7]), 0) == [0, 2, 1]
  {
    var preds := [0.9, 0.5, 0.7];
    assert ArgSortPrefix(preds, 1) == [0];
    assert ArgSortPrefix(preds, 2) == [1, 0];
    assert Insert(preds, [0], 2) == [2, 0];
    assert ArgSortPrefix(preds, 3) == [1, 2, 0];
  }

  // ---- the service ----

  datatype ServiceError =
    | Encode(cause: EncodeError)
    | EmptyEmbedding                 // `np.vstack` of an empty list raises
    | IndexMissing(idx: nat)         // `idx2proj[idx]` raises KeyError

  /** The ranking `recommend` returns. */
  datatype Ranking = Ranking(indices: seq<nat>, scores: seq<real>)

  /** The two-tower model's `predict(...).flatten()`, one real per project row. */
  type Scorer = (seq<seq<real>>, seq<seq<real>>, seq<seq<real>>, seq<seq<real>>) -> seq<real>

  /** `TextEmbedding.embed([text])`. */
  type TextEmbedder = string -> seq<seq<real>>

  datatype SkillMetadata = SkillMetadata(skillName: string, level: string, months: int)

  /** One entry of the loaded `projects` dictionary, in insertion order. */
  datatype ProjectEntry = ProjectEntry(key: string, description: Option<string>, skills: Option<seq<SkillDict>>)

  datatype Recommendation =
    Recommendation(rank: nat, projectId: string, score: real, description: string, requiredSkills: seq<SkillMetadata>)

  /** `np.tile(v, (n, 1))`. */
  function Tile(v: seq<real>, n: nat): (rows: seq<seq<real>>)
    ensures |rows| == n && forall i | 0 <= i < n :: rows[i] == v
  {
    seq(n, _ => v)
  }

  /** A skill of the project metadata, each missing field defaulted. */
  function Metadata(sk: SkillDict): SkillMetadata {
    SkillMetadata(sk.skillName.GetOr("Unknown"), sk.level.GetOr("Unknown"), sk.months.GetOr(0))
  }

  function RequiredSkills(entry: ProjectEntry): (objs: seq<SkillMetadata>)
    ensures |objs| == |entry.skills.GetOr([])|
    ensures forall i | 0 <= i < |objs| :: objs[i] == Metadata(entry.skills.GetOr([])[i])
  {
    var skills := entry.skills.GetOr([]);
    seq(|skills|, i requires 0 <= i < |skills| => Metadata(skills[i]))
  }

  /** The enriched row at a 1-based rank. */
  function Row(rank: nat, idx: nat, score: real, projects: seq<ProjectEntry>): Recommendation
    requires idx < |projects|
  {
    Recommendation(rank, projects[idx].key, score, projects[idx].description.GetOr(""), RequiredSkills(projects[idx]))
  }

  /** `zip(top_idxs, scores)`. */
  function Zip(idxs: seq<nat>, scores: seq<real>): (pairs: seq<(nat, real)>)
    ensures |pairs| == if |idxs| < |scores| then |idxs| else |scores|
    ensures forall i | 0 <= i < |pairs| :: pairs[i] == (idxs[i], scores[i])
  {
    var n := if |idxs| < |scores| then |idxs| else |scores|;
    seq(n, i requires 0 <= i < n => (idxs[i], scores[i]))
  }

  /** The enrichment loop's outcome: rows ranked 1, 2, ... until an index with no project. */
  function Enrich(pairs: seq<(nat, real)>, projects: seq<ProjectEntry>): (r: Result<seq<Recommendation>, ServiceError>)
    ensures r.Success? ==> |r.value| == |pairs|
  {
    if pairs == [] then Success([])
    else
      var n := |pairs| - 1;
      match Enrich(pairs[..n], projects)
      case Failure(e) => Failure(e)
      case Success(rows) =>
        if pairs[n].0 < |projects| then Success(rows + [Row(n + 1, pairs[n].0, pairs[n].1, projects)])
        else Failure(IndexMissing(pairs[n].0))
  }

  /** Enrichment succeeds iff every index names a project; the rows then carry the ranks
      1..len in order, the idx-th project key, the score, and the defaulted metadata;
      otherwise it fails on the first index with no project. */
  lemma {:induction false} EnrichRows(pairs: seq<(nat, real)>, projects: seq<ProjectEntry>)
    ensures Enrich(pairs, projects).Success? <==> forall i | 0 <= i < |pairs| :: pairs[i].0 < |projects|
    ensures Enrich(pairs, projects).Success? ==>
      forall i | 0 <= i < |pairs| :: Enrich(pairs, projects).value[i] == Row(i + 1, pairs[i].0, pairs[i].1, projects)
    ensures Enrich(pairs, projects).Failure? ==>
      exists i | 0 <= i < |pairs| :: Enrich(pairs, projects).error == IndexMissing(pairs[i].0) &&
        pairs[i].0 >= |projects| && forall j | 0 <= j < i :: pairs[j].0 < |projects|
  {
    if pairs != [] {
      var n := |pairs| - 1;
      EnrichRows(pairs[..n], projects);
      assert forall i | 0 <= i < n :: pairs[..n][i] == pairs[i];
      if Enrich(pairs[..n], projects).Failure? {
        var i :| 0 <= i < n && Enrich(pairs[..n], projects).error == IndexMissing(pairs[..n][i].0) &&
          pairs[..n][i].0 >= |projects| && forall j | 0 <= j < i :: pairs[..n][j].0 < |projects|;
        assert Enrich(pairs, projects).error == IndexMissing(pairs[i].0);
      }
    }
  }

  class RecommendationService {
    const projectProfiles: seq<seq<real>>
    const projectTextEmbs: seq<seq<real>>
    const nProjects: nat
    const model: Scorer
    const textModel: TextEmbedder

    /** The loaded weights and models; `n_projects` is the number of profile rows. */
    constructor(profiles: seq<seq<real>>, textEmbs: seq<seq<real>>, scorer: Scorer, embedder: TextEmbedder)
      ensures projectProfiles == profiles && projectTextEmbs == textEmbs
      ensures nProjects == |profiles| && model == scorer && textModel == embedder
    {
      projectProfiles := profiles;
      projectTextEmbs := textEmbs;
      nProjects := |profiles|;
      model := scorer;
      textModel := embedder;
    }

    /** `build_user_vector`: a zeroed buffer filled record by record with assignment. */
    method BuildUserVector(skills: seq<SkillDict>) returns (r: Result<seq<real>, EncodeError>)
      ensures r == OnlineVector(skills)
    {
      var vec := new real[Constants.NumCategories](_ => 0.0);
      assert skills[..0] == [];
      assert vec[..] == Zeros(Constants.NumCategories);
      for k := 0 to |skills|
        invariant OnlineVector(skills[..k]) == Success(vec[..])
      {
        var sk := skills[k];
        OnlineVectorStep(skills, k);
        var fault := RecordFault(sk);
        if fault.Some? {
          r := Failure(fault.value);
          PrefixFailureIsFinal(skills, k + 1);
          return;
        }
        Accepted(sk);
        Constants.SlotOfName(sk.skillName.value, 0);
        ghost var before := vec[..];
        var slot := Constants.Skill2Idx[sk.skillName.value];
        vec[slot] := Weighted(sk);
        assert vec[..] == before[slot := Weighted(sk)];
      }
      assert skills[..|skills|] == skills;
      r := Success(vec[..]);
    }

    /** `embed_text`: the first row of the stacked embeddings. */
    function EmbedText(text: string): (r: Result<seq<real>, ServiceError>)
      ensures textModel(text) == [] <==> r.Failure?
      ensures r.Success? ==> r.value == textModel(text)[0]
    {
      var embs := textModel(text);
      if embs == [] then Failure(EmptyEmbedding) else Success(embs[0])
    }

    /** The model's predictions for one user against every project. */
    function Predictions(userNum: seq<real>, userTxt: seq<real>): seq<real> {
      model(Tile(userNum, nProjects), Tile(userTxt, nProjects), projectProfiles, projectTextEmbs)
    }

    /** `recommend`: encode, embed, tile, score, then take the top-K of the argsort. */
    function Recommend(skills: seq<SkillDict>, description: string, topK: int): (r: Result<Ranking, ServiceError>)
      ensures OnlineVector(skills).Failure? ==> r == Failure(Encode(OnlineVector(skills).error))
      ensures OnlineVector(skills).Success? && EmbedText(description).Failure? ==> r == Failure(EmptyEmbedding)
      ensures r.Success? ==> OnlineVector(skills).Success? && EmbedText(description).Success?
      ensures r.Success? ==>
        var preds := Predictions(OnlineVector(skills).value, EmbedText(description).value);
        && IsTopK(r.value.indices, preds, topK)
        && |r.value.scores| == |r.value.indices|
        && forall i | 0 <= i < |r.value.indices| :: r.value.scores[i] == preds[r.value.indices[i]]
    {
      match OnlineVector(skills)
      case Failure(e) => Failure(Encode(e))
      case Success(userNum) =>
        match EmbedText(description)
        case Failure(e) => Failure(e)
        case Success(userTxt) =>
          var preds := Predictions(userNum, userTxt);
          var order := ArgSort(preds);
          TopKOfAnyArgSort(preds, order, topK);
          var idxs := Selected(order, topK);
          Success(Ranking(idxs, Gather(preds, idxs)))
    }

    /** `recommend_with_metadata`: the ranking, enriched row by row in rank order. */
    method RecommendWithMetadata(skills: seq<SkillDict>, description: string, topK: int, projects: seq<ProjectEntry>)
      returns (r: Result<seq<Recommendation>, ServiceError>)
      ensures Recommend(skills, description, topK).Failure? ==> r == Failure(Recommend(skills, description, topK).error)
      ensures Recommend(skills, description, topK).Success? ==>
        r == Enrich(Zip(Recommend(skills, description, topK).value.indices, Recommend(skills, description, topK).value.scores), projects)
    {
      var ranked := Recommend(skills, description, topK);
      if ranked.Failure? {
        return Failure(ranked.error);
      }
      var pairs := Zip(ranked.value.indices, ranked.value.scores);
      var enriched: seq<Recommendation> := [];
      for k := 0 to |pairs|
        invariant Enrich(pairs[..k], projects) == Success(enriched)
      {
        EnrichStep(pairs, k, projects);
        var (idx, score) := pairs[k];
        if idx >= |projects| {
          r := Failure(IndexMissing(idx));
          EnrichFailureIsFinal(pairs, k + 1, projects);
          return;
        }
        enriched := enriched + [Row(k + 1, idx, score, projects)];
      }
      assert pairs[..|pairs|] == pairs;
      r := Success(enriched);
    }
  }

  /** Once a prefix of the records fails, the whole list fails the same way. */
  lemma {:induction false} PrefixFailureIsFinal(skills: seq<SkillDict>, k: nat)
    requires k <= |skills| && OnlineVector(skills[..k]).Failure?
    ensures OnlineVector(skills) == OnlineVector(skills[..k])
    decreases |skills| - k
  {
    if k < |skills| {
      assert skills[..k + 1][..k] == skills[..k];
      PrefixFailureIsFinal(skills, k + 1);
    } else {
      assert skills[..k] == skills;
    }
  }

  lemma EnrichStep(pairs: seq<(nat, real)>, k: nat, projects: seq<ProjectEntry>)
    requires k < |pairs|
    ensures Enrich(pairs[..k + 1], projects) ==
      match Enrich(pairs[..k], projects)
      case Failure(e) => Failure(e)
      case Success(rows) =>
        if pairs[k].0 < |projects| then Success(rows + [Row(k + 1, pairs[k].0, pairs[k].1, projects)])
        else Failure(IndexMissing(pairs[k].0))
  {
    assert pairs[..k + 1][..k] == pairs[..k];
  }

  /** Once a prefix of the ranking fails to enrich, the whole ranking fails the same way. */
  lemma {:induction false} EnrichFailureIsFinal(pairs: seq<(nat, real)>, k: nat, projects: seq<ProjectEntry>)
    requires k <= |pairs| && Enrich(pairs[..k], projects).Failure?
    ensures Enrich(pairs, projects) == Enrich(pairs[..k], projects)
    decreases |pairs| - k
  {
    if k < |pairs| {
      assert pairs[..k + 1][..k] == pairs[..k];
      EnrichFailureIsFinal(pairs, k + 1, projects);
    } else {
      assert pairs[..k] == pairs;
    }
  }
}
