/** The shared vocabulary of the backend: the nine skill categories, the level
    weights and the category-to-slot index. */
module Constants {

  const SkillCategories: seq<string> := [
    "Python",
    "AI and Machine learning",
    "Git",
    "MongoDB",
    "SQL",
    "Docker",
    "Excel",
    "Javascript",
    "Cloud Platform"
  ]

  /** Number of slots of a skill vector. */
  const NumCategories: nat := 9

  const LevelWeight: map<string, real> :=
    map["Basic" := 1.0, "CollegeResearch" := 2.0, "Professional" := 3.0, "Other" := 1.5]

  /** `skill2idx`: each category name to its position in SkillCategories. */
  const Skill2Idx: map<string, nat> := EnumerateIndex(SkillCategories)

  /** `{s: i for i, s in enumerate(names)}`: a later duplicate overwrites an earlier one. */
  function EnumerateIndex(names: seq<string>): (m: map<string, nat>)
    ensures m.Keys == set c | c in names
    ensures forall c | c in m :: m[c] < |names| && names[m[c]] == c
  {
    if names == [] then map[]
    else EnumerateIndex(names[..|names| - 1])[names[|names| - 1] := |names| - 1]
  }

  predicate Distinct<T(==)>(s: seq<T>) {
    forall i, j | 0 <= i < j < |s| :: s[i] != s[j]
  }

  lemma CategoriesAreNineDistinctNames()
    ensures |SkillCategories| == NumCategories
    ensures Distinct(SkillCategories)
  {
  }

  lemma {:induction false} EnumerateIndexOfDistinct(names: seq<string>, i: nat)
    requires Distinct(names) && i < |names|
    ensures names[i] in EnumerateIndex(names) && EnumerateIndex(names)[names[i]] == i
  {
    assert names[i] in names;
  }

  lemma Skill2IdxInvertsCategories()
    ensures forall i | 0 <= i < |SkillCategories| :: SkillCategories[i] in Skill2Idx && Skill2Idx[SkillCategories[i]] == i
    ensures Skill2Idx.Keys == set c | c in SkillCategories
    ensures forall c | c in Skill2Idx :: Skill2Idx[c] < NumCategories && SkillCategories[Skill2Idx[c]] == c
  {
    CategoriesAreNineDistinctNames();
    forall i | 0 <= i < |SkillCategories|
      ensures SkillCategories[i] in Skill2Idx && Skill2Idx[SkillCategories[i]] == i
    {
      EnumerateIndexOfDistinct(SkillCategories, i);
    }
  }

  /** A known name sits in slot c exactly when it is the c-th category. */
  lemma SlotOfName(name: string, c: nat)
    requires name in Skill2Idx && c < NumCategories
    ensures Skill2Idx[name] < NumCategories
    ensures Skill2Idx[name] == c <==> SkillCategories[c] == name
  {
    Skill2IdxInvertsCategories();
  }

  lemma LevelWeightsAreFixed()
    ensures LevelWeight.Keys == {"Basic", "CollegeResearch", "Professional", "Other"}
    ensures LevelWeight["Basic"] == 1.0 && LevelWeight["CollegeResearch"] == 2.0
    ensures LevelWeight["Professional"] == 3.0 && LevelWeight["Other"] == 1.5
  {
  }
}
