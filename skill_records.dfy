/** A skill record as the backend handles it: a JSON dictionary whose keys
    `skill_name`, `level` and `months` may each be absent. */
module SkillRecords {
  import opened Wrappers

  datatype SkillDict = SkillDict(skillName: Option<string>, level: Option<string>, months: Option<int>)
}
