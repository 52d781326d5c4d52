/** The LLM-extraction bookkeeping of the dataset generator: de-duplication of the
    extracted skills and the row loops that build the parsed list, the data table and
    the id mapping. The extractor itself is a parameter. */
module Helpers {
  import opened Wrappers
  import opened Decimal
  import Constants
  import VectorPoints

  /** The helper module's own copy of the category list. */
  const SkillCategories: seq<string> := [
    "Python",
    "AI and Machine learning",
    "Git",
    "MongoDB",
    "SQL",
    "Docker",
    "Excel",
    "Javascript",
    "Cloud Platform"
  ]

  /** The helper module's own copy of the level weights. */
  const LevelWeight: map<string, real> :=
    map["Basic" := 1.0, "CollegeResearch" := 2.0, "Professional" := 3.0, "Other" := 1.5]

  lemma HelperCopiesMatchConstants()
    ensures SkillCategories == Constants.SkillCategories
    ensures LevelWeight == Constants.LevelWeight
  {
  }

  /** An extracted skill, as the extractor's validated schema dumps it. */
  datatype Skill = Skill(skillName: string, level: string, months: int)

  type SkillKey = (string, string, int)

  function KeyOf(s: Skill): SkillKey { (s.skillName, s.level, s.months) }

  function KeySet(skills: seq<Skill>): set<SkillKey> {
    if skills == [] then {} else KeySet(skills[..|skills| - 1]) + {KeyOf(skills[|skills| - 1])}
  }

  lemma {:induction false} InKeySet(skills: seq<Skill>, k: SkillKey)
    ensures k in KeySet(skills) <==> exists i | 0 <= i < |skills| :: KeyOf(skills[i]) == k
  {
    if skills != [] {
      var n := |skills| - 1;
      InKeySet(skills[..n], k);
      assert forall i | 0 <= i < n :: skills[..n][i] == skills[i];
    }
  }

  /** The list `dedupe_skills` builds: a record is kept when its key is new. */
  function Dedup(skills: seq<Skill>): seq<Skill> {
    if skills == [] then []
    else
      var prev := Dedup(skills[..|skills| - 1]);
      var s := skills[|skills| - 1];
      if KeyOf(s) in KeySet(prev) then prev else prev + [s]
  }

  /** Reference definition: the records whose key does not occur earlier in the input,
      in input order. */
  function FirstOccurrences(skills: seq<Skill>): seq<Skill> {
    if skills == [] then []
    else
      var n := |skills| - 1;
      FirstOccurrences(skills[..n]) + (if KeyOf(skills[n]) in KeySet(skills[..n]) then [] else [skills[n]])
  }

  predicate DistinctKeys(skills: seq<Skill>) {
    forall i, j | 0 <= i < j < |skills| :: KeyOf(skills[i]) != KeyOf(skills[j])
  }

  /** `dedupe_skills`: one pass with a `seen` set of keys. */
  method DedupeSkills(skills: seq<Skill>) returns (result: seq<Skill>)
    ensures result == Dedup(skills)
  {
    var seen: set<SkillKey> := {};
    result := [];
    for k := 0 to |skills|
      invariant result == Dedup(skills[..k]) && seen == KeySet(result)
    {
      var s := skills[k];
      assert skills[..k + 1][..k] == skills[..k];
      var key := KeyOf(s);
      if key !in seen {
        assert (result + [s])[..|result|] == result;
        seen := seen + {key};
        result := result + [s];
      }
    }
    assert skills[..|skills|] == skills;
  }

  /** The output keeps exactly the input's keys. */
  lemma {:induction false} DedupSameKeys(skills: seq<Skill>)
    ensures KeySet(Dedup(skills)) == KeySet(skills)
  {
    if skills != [] {
      var n := |skills| - 1;
      var prev := Dedup(skills[..n]);
      DedupSameKeys(skills[..n]);
      assert (prev + [skills[n]])[..|prev|] == prev;
    }
  }

  /** No two output records share a key. */
  lemma {:induction false} DedupDistinctKeys(skills: seq<Skill>)
    ensures DistinctKeys(Dedup(skills))
  {
    if skills != [] {
      var n := |skills| - 1;
      var prev := Dedup(skills[..n]);
      DedupDistinctKeys(skills[..n]);
      InKeySet(prev, KeyOf(skills[n]));
    }
  }

  /** The output is the input's first occurrences, in input order. */
  lemma {:induction false} DedupIsFirstOccurrences(skills: seq<Skill>)
    ensures Dedup(skills) == FirstOccurrences(skills)
  {
    if skills != [] {
      var n := |skills| - 1;
      DedupIsFirstOccurrences(skills[..n]);
      DedupSameKeys(skills[..n]);
    }
  }

  /** Each record of the reference list is one whose key does not occur earlier. */
  lemma {:induction false} FirstOccurrencesAreFirst(skills: seq<Skill>)
    ensures forall k | 0 <= k < |FirstOccurrences(skills)| ::
      exists j | 0 <= j < |skills| :: skills[j] == FirstOccurrences(skills)[k] &&
        forall j' | 0 <= j' < j :: KeyOf(skills[j']) != KeyOf(skills[j])
  {
    if skills != [] {
      var n := |skills| - 1;
      var prev := FirstOccurrences(skills[..n]);
      var out := FirstOccurrences(skills);
      FirstOccurrencesAreFirst(skills[..n]);
      InKeySet(skills[..n], KeyOf(skills[n]));
      forall k | 0 <= k < |out|
        ensures exists j | 0 <= j < |skills| ::
                  skills[j] == out[k] && forall j' | 0 <= j' < j :: KeyOf(skills[j']) != KeyOf(skills[j])
      {
        if k < |prev| {
          assert out[k] == prev[k];
          var j :| 0 <= j < n && skills[..n][j] == prev[k] &&
            forall j' | 0 <= j' < j :: KeyOf(skills[..n][j']) != KeyOf(skills[..n][j]);
          assert skills[j] == out[k];
          assert forall j' | 0 <= j' < j :: KeyOf(skills[j']) != KeyOf(skills[j]) by {
            forall j' | 0 <= j' < j ensures KeyOf(skills[j']) != KeyOf(skills[j]) {
              assert skills[..n][j'] == skills[j'];
            }
          }
        } else {
          assert out[k] == skills[n];
          assert forall j' | 0 <= j' < n :: KeyOf(skills[j']) != KeyOf(skills[n]) by {
            forall j' | 0 <= j' < n ensures KeyOf(skills[j']) != KeyOf(skills[n]) {
              assert skills[..n][j'] == skills[j'];
            }
          }
        }
      }
    } else {
      assert FirstOccurrences(skills) == [];
    }
  }

  /** A list without repeated keys is its own de-duplication. */
  lemma {:induction false} DedupOfDistinct(skills: seq<Skill>)
    requires DistinctKeys(skills)
    ensures Dedup(skills) == skills
  {
    if skills != [] {
      var n := |skills| - 1;
      assert DistinctKeys(skills[..n]);
      DedupOfDistinct(skills[..n]);
      InKeySet(skills[..n], KeyOf(skills[n]));
      assert skills[..n] + [skills[n]] == skills;
    }
  }

  /** De-duplicating twice is de-duplicating once. */
  lemma DedupIdempotent(skills: seq<Skill>)
    ensures Dedup(Dedup(skills)) == Dedup(skills)
  {
    DedupDistinctKeys(skills);
    DedupOfDistinct(Dedup(skills));
  }

  /** Records that differ only in months have different keys, so both stay. */
  lemma MonthsDifferBothKept(name: string, level: string, m1: int, m2: int)
    requires m1 != m2
    ensures Dedup([Skill(name, level, m1), Skill(name, level, m2)]) == [Skill(name, level, m1), Skill(name, level, m2)]
  {
    DedupOfDistinct([Skill(name, level, m1), Skill(name, level, m2)]);
  }

  // ---- the row loops ----

  /** The extractor `recognize_skills(text, max_tokens=...)`. */
  type Recognizer = (string, nat) -> seq<Skill>

  datatype ParsedEntry = ParsedEntry(key: string, description: string, skills: seq<Skill>)
  datatype MapEntry = MapEntry(parsedIndex: nat, dataIndex: nat, parsedKey: string)

  /** The three outputs of a row loop: `parsed`, `data` and `mapping`. */
  datatype Outputs<D> = Outputs(parsed: seq<ParsedEntry>, data: seq<D>, mapping: map<int, MapEntry>)

  datatype ResumeRow = ResumeRow(resumeId: int, text: string, labels: seq<string>)
  datatype EmployeeData = EmployeeData(employeeId: int, resumeText: string, roles: string)

  datatype JobRow = JobRow(jobTitle: string, jobDescription: string, experience: Option<string>)
  datatype ProjectData = ProjectData(projectId: int, projectText: string, roles: string, experience: Option<string>)

  /** `sep.join(parts)`. */
  function Join(sep: string, parts: seq<string>): string {
    if parts == [] then ""
    else if |parts| == 1 then parts[0]
    else Join(sep, parts[..|parts| - 1]) + sep + parts[|parts| - 1]
  }

  function EmployeeKey(id: int): string { "employee_" + IntToString(id) }

  function ProjectKey(id: int): string { "project_" + IntToString(id) }

  /** The number of rows a loop visits: `if max_records and idx >= max_records: break`
      stops at the first such index only when max_records is truthy (not None, not 0). */
  function RowLimit(n: nat, maxRecords: Option<int>): (limit: nat)
    ensures limit <= n
    ensures maxRecords.None? || maxRecords == Some(0) ==> limit == n
    ensures maxRecords.Some? && maxRecords.value > 0 ==> limit == if maxRecords.value < n then maxRecords.value else n
    ensures maxRecords.Some? && maxRecords.value < 0 ==> limit == 0
  {
    if maxRecords.None? || maxRecords.value == 0 then n
    else if maxRecords.value <= 0 then 0
    else if maxRecords.value < n then maxRecords.value
    else n
  }

  /** Appending one kept row: the new entries sit at the last index of both lists. */
  function Record<D>(out: Outputs<D>, id: int, key: string, desc: string, skills: seq<Skill>, row: D): Outputs<D> {
    Outputs(out.parsed + [ParsedEntry(key, desc, skills)], out.data + [row],
            out.mapping[id := MapEntry(|out.parsed|, |out.data|, key)])
  }

  /** The resume loop's outputs over some rows. */
  function ResumeOutputs(rows: seq<ResumeRow>, recognize: Recognizer): Outputs<EmployeeData> {
    if rows == [] then Outputs([], [], map[])
    else
      var out := ResumeOutputs(rows[..|rows| - 1], recognize);
      var row := rows[|rows| - 1];
      var skills := Dedup(recognize(row.text, 12000));
      if skills == [] then out
      else Record(out, row.resumeId, EmployeeKey(row.resumeId), row.text, skills,
                  EmployeeData(row.resumeId, row.text, Join("_", row.labels)))
  }

  /** The job loop's outputs over some rows; row idx gets project id idx + 1. */
  function JobOutputs(rows: seq<JobRow>, recognize: Recognizer): Outputs<ProjectData> {
    if rows == [] then Outputs([], [], map[])
    else
      var idx := |rows| - 1;
      var out := JobOutputs(rows[..idx], recognize);
      var row := rows[idx];
      var desc := row.jobTitle + ": " + row.jobDescription;
      var skills := Dedup(recognize(desc, 10000));
      if skills == [] then out
      else Record(out, idx + 1, ProjectKey(idx + 1), desc, skills,
                  ProjectData(idx + 1, desc, row.jobTitle, row.experience))
  }

  lemma ResumeStep(rows: seq<ResumeRow>, idx: nat, recognize: Recognizer)
    requires idx < |rows|
    ensures var row := rows[idx];
      var skills := Dedup(recognize(row.text, 12000));
      ResumeOutputs(rows[..idx + 1], recognize) ==
        if skills == [] then ResumeOutputs(rows[..idx], recognize)
        else Record(ResumeOutputs(rows[..idx], recognize), row.resumeId, EmployeeKey(row.resumeId), row.text, skills,
                    EmployeeData(row.resumeId, row.text, Join("_", row.labels)))
  {
    assert rows[..idx + 1][..idx] == rows[..idx];
  }

  lemma JobStep(rows: seq<JobRow>, idx: nat, recognize: Recognizer)
    requires idx < |rows|
    ensures var row := rows[idx];
      var desc := row.jobTitle + ": " + row.jobDescription;
      var skills := Dedup(recognize(desc, 10000));
      JobOutputs(rows[..idx + 1], recognize) ==
        if skills == [] then JobOutputs(rows[..idx], recognize)
        else Record(JobOutputs(rows[..idx], recognize), idx + 1, ProjectKey(idx + 1), desc, skills,
                    ProjectData(idx + 1, desc, row.jobTitle, row.experience))
  {
    assert rows[..idx + 1][..idx] == rows[..idx];
  }

  /** The loop leaves at the row limit, whether by `break` or by running out of rows. */
  lemma LoopExit(n: nat, maxRecords: Option<int>, idx: nat)
    requires idx <= RowLimit(n, maxRecords)
    requires idx == n || (maxRecords.Some? && maxRecords.value != 0 && idx >= maxRecords.value)
    ensures idx == RowLimit(n, maxRecords)
  {
  }

  /** `process_resumes` without the file I/O. */
  method ProcessResumes(rows: seq<ResumeRow>, recognize: Recognizer, maxRecords: Option<int>)
    returns (out: Outputs<EmployeeData>)
    ensures out == ResumeOutputs(rows[..RowLimit(|rows|, maxRecords)], recognize)
  {
    var parsed: seq<ParsedEntry> := [];
    var data: seq<EmployeeData> := [];
    var mapping: map<int, MapEntry> := map[];
    var idx := 0;
    while idx < |rows|
      invariant idx <= RowLimit(|rows|, maxRecords)
      invariant Outputs(parsed, data, mapping) == ResumeOutputs(rows[..idx], recognize)
    {
      if maxRecords.Some? && maxRecords.value != 0 && idx >= maxRecords.value {
        break;
      }
      var row := rows[idx];
      ResumeStep(rows, idx, recognize);
      ghost var before := Outputs(parsed, data, mapping);
      var skills := DedupeSkills(recognize(row.text, 12000));
      if skills == [] {
        idx := idx + 1;
        continue;
      }
      var empId := row.resumeId;
      var key := EmployeeKey(empId);
      var roles := Join("_", row.labels);
      parsed := parsed + [ParsedEntry(key, row.text, skills)];
      data := data + [EmployeeData(empId, row.text, roles)];
      mapping := mapping[empId := MapEntry(|parsed| - 1, |data| - 1, key)];
      assert Outputs(parsed, data, mapping) == Record(before, empId, key, row.text, skills, EmployeeData(empId, row.text, roles));
      idx := idx + 1;
    }
    LoopExit(|rows|, maxRecords, idx);
    out := Outputs(parsed, data, mapping);
  }

  /** `process_jobs` without the file I/O. */
  method ProcessJobs(rows: seq<JobRow>, recognize: Recognizer, maxRecords: Option<int>)
    returns (out: Outputs<ProjectData>)
    ensures out == JobOutputs(rows[..RowLimit(|rows|, maxRecords)], recognize)
  {
    var parsed: seq<ParsedEntry> := [];
    var data: seq<ProjectData> := [];
    var mapping: map<int, MapEntry> := map[];
    var idx := 0;
    while idx < |rows|
      invariant idx <= RowLimit(|rows|, maxRecords)
      invariant Outputs(parsed, data, mapping) == JobOutputs(rows[..idx], recognize)
    {
      if maxRecords.Some? && maxRecords.value != 0 && idx >= maxRecords.value {
        break;
      }
      var row := rows[idx];
      JobStep(rows, idx, recognize);
      ghost var before := Outputs(parsed, data, mapping);
      var desc := row.jobTitle + ": " + row.jobDescription;
      var skills := DedupeSkills(recognize(desc, 10000));
      if skills == [] {
        idx := idx + 1;
        continue;
      }
      var projId := idx + 1;
      var key := ProjectKey(projId);
      parsed := parsed + [ParsedEntry(key, desc, skills)];
      data := data + [ProjectData(projId, desc, row.jobTitle, row.experience)];
      mapping := mapping[projId := MapEntry(|parsed| - 1, |data| - 1, key)];
      assert Outputs(parsed, data, mapping) == Record(before, projId, key, desc, skills, ProjectData(projId, desc, row.jobTitle, row.experience));
      idx := idx + 1;
    }
    LoopExit(|rows|, maxRecords, idx);
    out := Outputs(parsed, data, mapping);
  }

  // ---- what the row loops maintain ----

  /** The `mapping` entry of `id` points at the same index in `parsed` and `data`, the parsed
      entry there carries the entry's key, which is the formatted key of `id`, and the data
      row there carries `id`. */
  ghost predicate EntryConsistent<D>(out: Outputs<D>, id: int, dataId: D -> int, keyFor: int -> string)
    requires id in out.mapping
  {
    var m := out.mapping[id];
    && m.parsedIndex == m.dataIndex
    && m.parsedIndex < |out.parsed| && m.dataIndex < |out.data|
    && out.parsed[m.parsedIndex].key == m.parsedKey == keyFor(id)
    && dataId(out.data[m.dataIndex]) == id
  }

  ghost predicate WellFormed<D>(out: Outputs<D>, dataId: D -> int, keyFor: int -> string) {
    && |out.parsed| == |out.data|
    && (forall id | id in out.mapping :: EntryConsistent(out, id, dataId, keyFor))
    && forall i | 0 <= i < |out.parsed| :: out.parsed[i].skills != [] && DistinctKeys(out.parsed[i].skills)
  }

  /** One kept row keeps the outputs well formed, and its mapping entry points at the
      last index of both lists. */
  lemma RecordPreserves<D>(out: Outputs<D>, id: int, key: string, desc: string, skills: seq<Skill>, row: D,
                           dataId: D -> int, keyFor: int -> string)
    requires WellFormed(out, dataId, keyFor)
    requires key == keyFor(id) && dataId(row) == id && skills != [] && DistinctKeys(skills)
    ensures WellFormed(Record(out, id, key, desc, skills, row), dataId, keyFor)
    ensures var r := Record(out, id, key, desc, skills, row);
      r.mapping[id].parsedIndex == |r.parsed| - 1 && r.mapping[id].dataIndex == |r.data| - 1
  {
    var r := Record(out, id, key, desc, skills, row);
    forall other | other in r.mapping
      ensures EntryConsistent(r, other, dataId, keyFor)
    {
      if other != id {
        assert EntryConsistent(out, other, dataId, keyFor);
      }
    }
  }

  /** Over any rows, with any extractor: the resume outputs are well formed, every parsed
      entry has a non-empty de-duplicated skill list, and there is at most one per row. */
  lemma {:induction false} ResumeOutputsWellFormed(rows: seq<ResumeRow>, recognize: Recognizer)
    ensures WellFormed(ResumeOutputs(rows, recognize), (d: EmployeeData) => d.employeeId, EmployeeKey)
    ensures |ResumeOutputs(rows, recognize).parsed| <= |rows|
  {
    if rows != [] {
      var n := |rows| - 1;
      var row := rows[n];
      ResumeOutputsWellFormed(rows[..n], recognize);
      var skills := Dedup(recognize(row.text, 12000));
      if skills != [] {
        DedupDistinctKeys(recognize(row.text, 12000));
        RecordPreserves(ResumeOutputs(rows[..n], recognize), row.resumeId, EmployeeKey(row.resumeId), row.text, skills,
                        EmployeeData(row.resumeId, row.text, Join("_", row.labels)),
                        (d: EmployeeData) => d.employeeId, EmployeeKey);
      }
    }
  }

  /** Over any rows, with any extractor: the job outputs are well formed, every project id
      lies in 1..|rows|, and no id is overwritten, so the mapping has one entry per
      parsed entry. */
  lemma {:induction false} JobOutputsWellFormed(rows: seq<JobRow>, recognize: Recognizer)
    ensures WellFormed(JobOutputs(rows, recognize), (d: ProjectData) => d.projectId, ProjectKey)
    ensures |JobOutputs(rows, recognize).parsed| <= |rows|
    ensures forall id | id in JobOutputs(rows, recognize).mapping :: 1 <= id <= |rows|
    ensures |JobOutputs(rows, recognize).mapping| == |JobOutputs(rows, recognize).parsed|
  {
    if rows != [] {
      var n := |rows| - 1;
      var row := rows[n];
      var out := JobOutputs(rows[..n], recognize);
      JobOutputsWellFormed(rows[..n], recognize);
      var desc := row.jobTitle + ": " + row.jobDescription;
      var skills := Dedup(recognize(desc, 10000));
      if skills != [] {
        DedupDistinctKeys(recognize(desc, 10000));
        RecordPreserves(out, n + 1, ProjectKey(n + 1), desc, skills,
                        ProjectData(n + 1, desc, row.jobTitle, row.experience),
                        (d: ProjectData) => d.projectId, ProjectKey);
        assert n + 1 !in out.mapping;
        assert out.mapping[n + 1 := MapEntry(|out.parsed|, |out.data|, ProjectKey(n + 1))].Keys == out.mapping.Keys + {n + 1};
      }
    }
  }

  /** The parsed keys read back as the vector-store point ids of their numbers. */
  lemma KeysGivePointIds(id: int)
    ensures VectorPoints.PointIdOf(EmployeeKey(id)) == VectorPoints.Int(id)
    ensures VectorPoints.PointIdOf(ProjectKey(id)) == VectorPoints.Int(id)
  {
    assert EmployeeKey(id) == "employee" + "_" + IntToString(id);
    assert ProjectKey(id) == "project" + "_" + IntToString(id);
    VectorPoints.PointIdOfNumberedKey("employee", id);
    VectorPoints.PointIdOfNumberedKey("project", id);
  }
}
