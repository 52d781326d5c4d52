/** The profile page's list handling: adding and deleting skills, and the request sent
    to the recommendations page. */
module ProfilePage {
  import opened Wrappers

  /** A skill as the page stores it; `description` is optional. */
  datatype Skill = Skill(id: string, skillName: string, level: string, months: int, description: Option<string>)

  /** What the add-skill form submits. */
  datatype SkillFormData = SkillFormData(skillName: string, level: string, months: int, description: string)

  datatype RecommendationRequest = RecommendationRequest(skills: seq<Skill>, description: string, topK: int)

  datatype Generation = Refused | Navigate(request: RecommendationRequest)

  const DefaultDescription: string := "No description provided"
  const RequestTopK: int := 5

  /** `handleAddSkill`: the submitted data under a fresh id (`crypto.randomUUID()` is a
      parameter), appended at the end. */
  function AddSkill(prev: seq<Skill>, data: SkillFormData, freshId: string): (next: seq<Skill>)
    ensures |next| == |prev| + 1 && next[..|prev|] == prev
    ensures next[|prev|] == Skill(freshId, data.skillName, data.level, data.months, Some(data.description))
  {
    prev + [Skill(freshId, data.skillName, data.level, data.months, Some(data.description))]
  }

  /** `prev.filter((skill) => skill.id !== id)`. */
  function DeleteSkill(prev: seq<Skill>, id: string): seq<Skill> {
    if prev == [] then []
    else
      var n := |prev| - 1;
      DeleteSkill(prev[..n], id) + (if prev[n].id != id then [prev[n]] else [])
  }

  /** Deleting removes exactly the skills with that id: nothing left has it, and every
      other skill stays. */
  lemma {:induction false} DeleteSkillMembers(prev: seq<Skill>, id: string)
    ensures forall s | s in DeleteSkill(prev, id) :: s.id != id
    ensures forall s: Skill | s.id != id :: s in DeleteSkill(prev, id) <==> s in prev
  {
    if prev != [] {
      var n := |prev| - 1;
      DeleteSkillMembers(prev[..n], id);
      assert prev == prev[..n] + [prev[n]];
    }
  }

  /** Deleting works piecewise, so the kept skills stay in their order. */
  lemma {:induction false} DeleteSkillConcat(a: seq<Skill>, b: seq<Skill>, id: string)
    ensures DeleteSkill(a + b, id) == DeleteSkill(a, id) + DeleteSkill(b, id)
    decreases |b|
  {
    if b == [] {
      assert a + b == a;
    } else {
      var n := |b| - 1;
      assert (a + b)[..|a + b| - 1] == a + b[..n];
      DeleteSkillConcat(a, b[..n], id);
    }
  }

  /** An id no skill carries leaves the list unchanged. */
  lemma {:induction false} DeleteAbsentId(prev: seq<Skill>, id: string)
    requires forall i | 0 <= i < |prev| :: prev[i].id != id
    ensures DeleteSkill(prev, id) == prev
  {
    if prev != [] {
      var n := |prev| - 1;
      assert forall i | 0 <= i < n :: prev[..n][i] == prev[i];
      DeleteAbsentId(prev[..n], id);
      assert prev[..n] + [prev[n]] == prev;
    }
  }

  /** `skill.description || ""` followed by `.filter(Boolean)`: the non-empty descriptions. */
  function Descriptions(skills: seq<Skill>): seq<string> {
    if skills == [] then []
    else
      var n := |skills| - 1;
      var d := skills[n].description.GetOr("");
      Descriptions(skills[..n]) + (if d != "" then [d] else [])
  }

  /** `parts.join(sep)`. */
  function Join(sep: string, parts: seq<string>): string {
    if parts == [] then ""
    else if |parts| == 1 then parts[0]
    else Join(sep, parts[..|parts| - 1]) + sep + parts[|parts| - 1]
  }

  lemma {:induction false} JoinNonEmpty(sep: string, parts: seq<string>)
    requires forall i | 0 <= i < |parts| :: parts[i] != ""
    ensures Join(sep, parts) == "" <==> parts == []
  {
    if |parts| > 1 {
      JoinNonEmpty(sep, parts[..|parts| - 1]);
    }
  }

  lemma {:induction false} DescriptionsNonEmpty(skills: seq<Skill>)
    ensures forall i | 0 <= i < |Descriptions(skills)| :: Descriptions(skills)[i] != ""
    ensures Descriptions(skills) == [] <==> forall i | 0 <= i < |skills| :: skills[i].description.GetOr("") == ""
  {
    if skills != [] {
      var n := |skills| - 1;
      DescriptionsNonEmpty(skills[..n]);
      assert forall i | 0 <= i < n :: skills[..n][i] == skills[i];
    }
  }

  /** The request description: the joined descriptions, or the fallback text when the
      join is empty (`||` treats "" as false). */
  function RequestDescription(skills: seq<Skill>): string {
    var joined := Join(". ", Descriptions(skills));
    if joined != "" then joined else DefaultDescription
  }

  /** The fallback appears exactly when no skill has a non-empty description; otherwise
      the description is the non-empty ones joined with ". ", in list order. */
  lemma RequestDescriptionCases(skills: seq<Skill>)
    ensures (forall i | 0 <= i < |skills| :: skills[i].description.GetOr("") == "") ==>
      RequestDescription(skills) == DefaultDescription
    ensures (exists i | 0 <= i < |skills| :: skills[i].description.GetOr("") != "") ==>
      RequestDescription(skills) == Join(". ", Descriptions(skills))
  {
    DescriptionsNonEmpty(skills);
    JoinNonEmpty(". ", Descriptions(skills));
  }

  /** `handleGenerateRecommendations`. */
  function GenerateRecommendations(skills: seq<Skill>): (g: Generation)
    ensures g.Refused? <==> skills == []
    ensures g.Navigate? ==>
      g.request.skills == skills && g.request.topK == 5 &&
      g.request.description == RequestDescription(skills)
  {
    if |skills| == 0 then Refused
    else Navigate(RecommendationRequest(skills, RequestDescription(skills), RequestTopK))
  }

  /** Two skills with descriptions "Built APIs" and none, then "Led a team": the request
      says "Built APIs. Led a team". */
  lemma DescriptionExample()
    ensures RequestDescription([Skill("a", "Python", "Basic", 5, Some("Built APIs")),
                                Skill("b", "Git", "Basic", 3, None),
                                Skill("c", "SQL", "Other", 7, Some("Led a team"))])
         == "Built APIs. Led a team"
  {
    var s := [Skill("a", "Python", "Basic", 5, Some("Built APIs")),
              Skill("b", "Git", "Basic", 3, None),
              Skill("c", "SQL", "Other", 7, Some("Led a team"))];
    assert s[..1] == [s[0]];
    assert s[..2] == [s[0], s[1]];
    assert [s[0]][..0] == [];
    assert [s[0], s[1]][..1] == [s[0]];
    assert Descriptions([s[0]]) == ["Built APIs"];
    assert Descriptions([s[0], s[1]]) == ["Built APIs"];
    assert Descriptions(s) == ["Built APIs", "Led a team"];
  }
}
