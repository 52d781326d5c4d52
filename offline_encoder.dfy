/** The offline feature encoder of the dataset generator: a list of skill
    dictionaries becomes one accumulated weighted-months value per category. */
module OfflineEncoder {
  import opened Wrappers
  import opened SkillRecords
  import Constants

  /** The generator's own copy of the category list. */
  const SkillCategories: seq<string> := [
    "Python",
    "AI and Machine learning",
    "Git",
    "MongoDB",
    "SQL",
    "Docker",
    "Excel",
    "Javascript",
    "Cloud Platform"
  ]

  /** The generator's own copy of the level weights. */
  const LevelWeight: map<string, real> :=
    map["Basic" := 1.0, "CollegeResearch" := 2.0, "Professional" := 3.0, "Other" := 1.5]

  lemma GeneratorCopiesMatchConstants()
    ensures SkillCategories == Constants.SkillCategories
    ensures LevelWeight == Constants.LevelWeight
  {
  }

  /** `list.index`: the position of the first occurrence. */
  function IndexOf(s: seq<string>, x: string): (i: nat)
    requires x in s
    ensures i < |s| && s[i] == x
    ensures forall j | 0 <= j < i :: s[j] != x
  {
    if s[0] == x then 0 else 1 + IndexOf(s[1..], x)
  }

  /** `LEVEL_WEIGHT.get(level, 1.0)`; a missing level is `None`, which is no key. */
  function WeightOf(level: Option<string>): real {
    if level.Some? && level.value in LevelWeight then LevelWeight[level.value] else 1.0
  }

  /** What one record adds to its category's slot: `months * weight`, months defaulting to 0. */
  function Contribution(sk: SkillDict): real {
    sk.months.GetOr(0) as real * WeightOf(sk.level)
  }

  /** Sum of the contributions of all records named `category`. */
  function SlotTotal(skills: seq<SkillDict>, category: string): real {
    if skills == [] then 0.0
    else
      var last := skills[|skills| - 1];
      SlotTotal(skills[..|skills| - 1], category) + (if last.skillName == Some(category) then Contribution(last) else 0.0)
  }

  /** The vector `make_skill_vector` is specified to return. */
  function SkillVector(skills: seq<SkillDict>): seq<real> {
    seq(|SkillCategories|, i requires 0 <= i < |SkillCategories| => SlotTotal(skills, SkillCategories[i]))
  }

  /** `make_skill_vector`: accumulate `vec[idx] += months * weight` record by record. */
  method MakeSkillVector(skills: seq<SkillDict>) returns (vec: seq<real>)
    ensures vec == SkillVector(skills)
  {
    Constants.CategoriesAreNineDistinctNames();
    vec := seq(|SkillCategories|, _ => 0.0);
    assert skills[..0] == [];
    for k := 0 to |skills|
      invariant vec == SkillVector(skills[..k])
    {
      var sk := skills[k];
      AppendRecord(skills[..k], sk);
      assert skills[..k + 1] == skills[..k] + [sk];
      if sk.skillName.Some? && sk.skillName.value in SkillCategories {
        var idx := IndexOf(SkillCategories, sk.skillName.value);
        vec := vec[idx := vec[idx] + Contribution(sk)];
      }
    }
    assert skills[..|skills|] == skills;
  }

  /** Slots over an arbitrary list of distinct category names. */
  function Slots(categories: seq<string>, skills: seq<SkillDict>): seq<real> {
    seq(|categories|, i requires 0 <= i < |categories| => SlotTotal(skills, categories[i]))
  }

  lemma {:induction false} SlotsAppend(categories: seq<string>, skills: seq<SkillDict>, sk: SkillDict)
    requires Constants.Distinct(categories)
    ensures sk.skillName.Some? && sk.skillName.value in categories ==>
      var idx := IndexOf(categories, sk.skillName.value);
      Slots(categories, skills + [sk]) == Slots(categories, skills)[idx := Slots(categories, skills)[idx] + Contribution(sk)]
    ensures !(sk.skillName.Some? && sk.skillName.value in categories) ==>
      Slots(categories, skills + [sk]) == Slots(categories, skills)
  {
    assert (skills + [sk])[..|skills|] == skills;
    var before, after := Slots(categories, skills), Slots(categories, skills + [sk]);
    forall i | 0 <= i < |categories|
      ensures after[i] == before[i] + (if sk.skillName == Some(categories[i]) then Contribution(sk) else 0.0)
    {
    }
    if sk.skillName.Some? && sk.skillName.value in categories {
      var idx := IndexOf(categories, sk.skillName.value);
      forall i | 0 <= i < |categories| && i != idx
        ensures sk.skillName != Some(categories[i])
      {
        if i < idx { assert categories[i] != categories[idx]; } else { assert categories[idx] != categories[i]; }
      }
    }
  }

  /** One more record changes only its own category's slot, by its contribution;
      a record with an unknown or missing name changes nothing. */
  lemma AppendRecord(skills: seq<SkillDict>, sk: SkillDict)
    ensures |SkillVector(skills + [sk])| == |SkillCategories|
    ensures sk.skillName.Some? && sk.skillName.value in SkillCategories ==>
      var idx := IndexOf(SkillCategories, sk.skillName.value);
      SkillVector(skills + [sk]) == SkillVector(skills)[idx := SkillVector(skills)[idx] + Contribution(sk)]
    ensures !(sk.skillName.Some? && sk.skillName.value in SkillCategories) ==>
      SkillVector(skills + [sk]) == SkillVector(skills)
  {
    Constants.CategoriesAreNineDistinctNames();
    GeneratorCopiesMatchConstants();
    assert SkillVector(skills) == Slots(SkillCategories, skills);
    assert SkillVector(skills + [sk]) == Slots(SkillCategories, skills + [sk]);
    SlotsAppend(SkillCategories, skills, sk);
  }

  /** An empty list encodes to the zero vector of length 9. */
  lemma EmptyIsZero()
    ensures SkillVector([]) == seq(Constants.NumCategories, _ => 0.0)
  {
  }

  lemma {:induction false} SlotTotalConcat(a: seq<SkillDict>, b: seq<SkillDict>, category: string)
    ensures SlotTotal(a + b, category) == SlotTotal(a, category) + SlotTotal(b, category)
    decreases |b|
  {
    if b == [] {
      assert a + b == a;
    } else {
      var n := |b| - 1;
      assert (a + b)[..|a + b| - 1] == a + b[..n];
      SlotTotalConcat(a, b[..n], category);
    }
  }

  /** Taking record j out of the list removes exactly its share from the slot. */
  lemma SlotTotalRemove(b: seq<SkillDict>, j: nat, category: string)
    requires j < |b|
    ensures SlotTotal(b, category) == SlotTotal(b[..j] + b[j + 1..], category) + SlotTotal([b[j]], category)
  {
    assert b == (b[..j] + [b[j]]) + b[j + 1..];
    SlotTotalConcat(b[..j] + [b[j]], b[j + 1..], category);
    SlotTotalConcat(b[..j], [b[j]], category);
    SlotTotalConcat(b[..j], b[j + 1..], category);
  }

  /** Reordering the records does not change any slot. */
  lemma {:induction false} SlotTotalPermutation(a: seq<SkillDict>, b: seq<SkillDict>, category: string)
    requires multiset(a) == multiset(b)
    ensures SlotTotal(a, category) == SlotTotal(b, category)
    decreases |a|
  {
    if a == [] {
      assert |b| == |multiset(b)| == 0;
    } else {
      var n := |a| - 1;
      var x := a[n];
      assert a == a[..n] + [x];
      assert x in multiset(a);
      var j :| 0 <= j < |b| && b[j] == x;
      var rest := b[..j] + b[j + 1..];
      assert b == b[..j] + [x] + b[j + 1..];
      assert multiset(a[..n]) == multiset(rest) by {
        calc {
          multiset(b);
          multiset(b[..j] + [x] + b[j + 1..]);
          multiset(b[..j]) + multiset{x} + multiset(b[j + 1..]);
          multiset(rest) + multiset{x};
        }
        assert multiset(a) == multiset(a[..n]) + multiset{x};
        assert multiset(a[..n]) == multiset(a) - multiset{x};
        assert multiset(rest) == multiset(b) - multiset{x};
      }
      SlotTotalRemove(b, j, category);
      SlotTotalConcat(a[..n], [x], category);
      SlotTotalPermutation(a[..n], rest, category);
    }
  }

  /** Input order does not matter: a permutation of the records encodes identically. */
  lemma OrderIndependent(a: seq<SkillDict>, b: seq<SkillDict>)
    requires multiset(a) == multiset(b)
    ensures SkillVector(a) == SkillVector(b)
  {
    forall i | 0 <= i < |SkillCategories|
      ensures SkillVector(a)[i] == SkillVector(b)[i]
    {
      SlotTotalPermutation(a, b, SkillCategories[i]);
    }
  }

  /** Repeated records for one category accumulate (no de-duplication here). */
  lemma RepeatsAccumulate(sk: SkillDict)
    requires sk.skillName.Some? && sk.skillName.value in SkillCategories
    ensures var idx := IndexOf(SkillCategories, sk.skillName.value);
      SkillVector([sk, sk])[idx] == 2.0 * Contribution(sk)
  {
    assert [sk, sk] == [sk] + [sk];
    assert [sk] == [] + [sk];
    AppendRecord([], sk);
    AppendRecord([sk], sk);
  }

  /** The defaults: unknown level weighs 1.0, missing months count as 0. */
  lemma ContributionDefaults(sk: SkillDict)
    ensures sk.months.None? ==> Contribution(sk) == 0.0
    ensures (sk.level.None? || sk.level.value !in LevelWeight) ==> Contribution(sk) == sk.months.GetOr(0) as real
  {
  }

  /** One Python record at the Professional level for 24 months gives 72 in slot 0. */
  lemma ProfessionalPythonExample()
    ensures SkillVector([SkillDict(Some("Python"), Some("Professional"), Some(24))])
         == [72.0, 0.0, 0.0, 0.0, 0.0, 0.0, 0.0, 0.0, 0.0]
  {
    var sk := SkillDict(Some("Python"), Some("Professional"), Some(24));
    AppendRecord([], sk);
    assert [] + [sk] == [sk];
  }
}
