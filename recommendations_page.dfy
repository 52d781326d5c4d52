/** The recommendations page's display helpers: score and level badges, description
    truncation and its toggle, and the experience label of a required skill. */
module RecommendationsPage {
  import opened Decimal

  // ---------------------------------------------------------------------------
  // Score badge
  // ---------------------------------------------------------------------------

  const Green: string := "bg-green-100 text-green-800"
  const Yellow: string := "bg-yellow-100 text-yellow-800"
  const Red: string := "bg-red-100 text-red-800"

  /** `getScoreColor`: scores above 100 are read in thousandths before banding. */
  function ScoreColor(score: real): string {
    var normalized := if score > 100.0 then score / 1000.0 else score;
    if normalized >= 50.0 then Green
    else if normalized >= 30.0 then Yellow
    else Red
  }

  /** The number shown in the badge before `toFixed(0)`: the score itself above 100,
      otherwise the score as a percentage. */
  function DisplayedScore(score: real): real {
    if score > 100.0 then score else score * 100.0
  }

  /** The bands on both scales: up to 100 the score is compared with 50 and 30
      directly, above 100 with 50000 and 30000. */
  lemma ScoreColorBands(score: real)
    ensures score <= 100.0 ==>
      (ScoreColor(score) == Green <==> score >= 50.0) &&
      (ScoreColor(score) == Yellow <==> 30.0 <= score < 50.0) &&
      (ScoreColor(score) == Red <==> score < 30.0)
    ensures score > 100.0 ==>
      (ScoreColor(score) == Green <==> score >= 50000.0) &&
      (ScoreColor(score) == Yellow <==> 30000.0 <= score < 50000.0) &&
      (ScoreColor(score) == Red <==> score < 30000.0)
  {
  }

  /** A score between 0 and 1 is displayed as a percentage up to 100 but always gets
      the red badge, since the colour compares the unscaled score with 30 and 50. */
  lemma UnitScoresAreRed(score: real)
    requires 0.0 <= score <= 1.0
    ensures ScoreColor(score) == Red
    ensures 0.0 <= DisplayedScore(score) <= 100.0
  {
  }

  lemma SixtyPercentIsRed()
    ensures DisplayedScore(0.6) == 60.0 && ScoreColor(0.6) == Red
    ensures ScoreColor(60.0) == Green
  {
  }

  // ---------------------------------------------------------------------------
  // Level badge
  // ---------------------------------------------------------------------------

  const LevelColors: map<string, string> := map[
    "Basic" := "bg-blue-100 text-blue-800",
    "CollegeResearch" := "bg-purple-100 text-purple-800",
    "Professional" := "bg-green-100 text-green-800",
    "Other" := "bg-gray-100 text-gray-800"]

  /** `getLevelColor`: the level's entry, or the `Other` colour for any other level. */
  function LevelColor(level: string): string {
    if level in LevelColors then LevelColors[level] else LevelColors["Other"]
  }

  /** Every level gets one of the four colours; the four known levels get their own,
      every other level the gray one. */
  lemma LevelColorCases(level: string)
    ensures LevelColor(level) in LevelColors.Values
    ensures level !in {"Basic", "CollegeResearch", "Professional"} ==>
      LevelColor(level) == "bg-gray-100 text-gray-800"
    ensures level == "Basic" ==> LevelColor(level) == "bg-blue-100 text-blue-800"
    ensures level == "CollegeResearch" ==> LevelColor(level) == "bg-purple-100 text-purple-800"
    ensures level == "Professional" ==> LevelColor(level) == "bg-green-100 text-green-800"
  {
    assert LevelColors["Other"] == "bg-gray-100 text-gray-800";
  }

  /** The badge text: "CollegeResearch" is spelled out, other levels are shown as they are. */
  function LevelLabel(level: string): (shown: string)
    ensures level == "CollegeResearch" ==> shown == "College Research"
    ensures level != "CollegeResearch" ==> shown == level
  {
    if level == "CollegeResearch" then "College Research" else level
  }

  // ---------------------------------------------------------------------------
  // Description truncation and the Read More toggle
  // ---------------------------------------------------------------------------

  const DescriptionLimit: nat := 200

  /** `getTruncatedText`. */
  function TruncatedText(text: string, isExpanded: bool, length: nat): string {
    if isExpanded || |text| <= length then text else text[..length] + "..."
  }

  /** The truncated text is the first `length` characters followed by "...": what is
      shown, without the marker, is always a prefix of the text. */
  lemma TruncatedTextIsPrefix(text: string, isExpanded: bool, length: nat)
    ensures var shown := TruncatedText(text, isExpanded, length);
      shown == text ||
      (|shown| == length + 3 && shown[..length] == text[..length] && shown[length..] == "..."
       && |text| > length)
    ensures isExpanded ==> TruncatedText(text, isExpanded, length) == text
  {
  }

  /** The button is rendered when the description is longer than 200 characters. */
  predicate ShowsToggle(description: string) {
    |description| > 200
  }

  /** With no button the description is shown whole either way; with the button the
      collapsed view is the 200-character prefix and "...", which differs from the
      description unless the description is exactly that prefix and "...". */
  lemma ToggleMatchesTruncation(description: string, isExpanded: bool)
    ensures !ShowsToggle(description) ==> TruncatedText(description, isExpanded, DescriptionLimit) == description
    ensures ShowsToggle(description) ==>
      TruncatedText(description, false, DescriptionLimit) == description[..200] + "..."
    ensures ShowsToggle(description) && description != description[..200] + "..." ==>
      TruncatedText(description, false, DescriptionLimit) != description
  {
  }

  /** Missing entries read as `undefined`, which counts as collapsed. */
  predicate IsExpanded(expanded: map<string, bool>, projectId: string) {
    projectId in expanded && expanded[projectId]
  }

  /** `toggleDescription`. */
  function ToggleDescription(expanded: map<string, bool>, projectId: string): map<string, bool> {
    expanded[projectId := !IsExpanded(expanded, projectId)]
  }

  /** Toggling flips that project and leaves every other project as it was; toggling
      twice restores the view. */
  lemma ToggleFlipsOne(expanded: map<string, bool>, projectId: string, other: string)
    ensures IsExpanded(ToggleDescription(expanded, projectId), projectId) == !IsExpanded(expanded, projectId)
    ensures other != projectId ==>
      IsExpanded(ToggleDescription(expanded, projectId), other) == IsExpanded(expanded, other)
    ensures IsExpanded(ToggleDescription(ToggleDescription(expanded, projectId), projectId), other)
         == IsExpanded(expanded, other)
  {
  }

  /** The toggle's caption. */
  function ToggleCaption(expanded: map<string, bool>, projectId: string): (caption: string)
    ensures caption == "Show Less" <==> IsExpanded(expanded, projectId)
    ensures caption == "Show Less" || caption == "Read More"
  {
    if IsExpanded(expanded, projectId) then "Show Less" else "Read More"
  }

  // ---------------------------------------------------------------------------
  // Experience label of a required skill
  // ---------------------------------------------------------------------------

  /** `Math.floor(m / 12)`: Dafny's division by a positive divisor rounds down. */
  function FloorDiv12(m: int): int { m / 12 }

  /** JavaScript's `%`, whose result takes the sign of the dividend. */
  function JsRem(a: int, b: int): (r: int)
    requires b > 0
    ensures a >= 0 ==> r == a % b
    ensures a < 0 ==> -b < r <= 0
  {
    if a >= 0 then a % b else -((-a) % b)
  }

  /** The label before " experience": years and months when there is a full year,
      months alone otherwise. */
  function ExperienceLabel(months: int): string {
    var years := FloorDiv12(months);
    if years > 0 then IntToString(years) + "y " + IntToString(JsRem(months, 12)) + "m"
    else IntToString(months) + "m"
  }

  /** From a year on, the label names y years and r months with 12y + r equal to the
      months and r below 12; below a year (negative values included) it is the months. */
  lemma ExperienceLabelSplits(months: int)
    ensures months >= 12 ==> exists y: nat, r: nat {:trigger IntToString(y), IntToString(r)} ::
      y >= 1 && r < 12 && y * 12 + r == months &&
      ExperienceLabel(months) == IntToString(y) + "y " + IntToString(r) + "m"
    ensures months < 12 ==> ExperienceLabel(months) == IntToString(months) + "m"
  {
    if months >= 12 {
      var y: nat, r: nat := months / 12, months % 12;
      assert y * 12 + r == months;
      assert ExperienceLabel(months) == IntToString(y) + "y " + IntToString(r) + "m";
    }
  }

  lemma ExperienceLabelExamples()
    ensures ExperienceLabel(30) == "2y 6m"
    ensures ExperienceLabel(24) == "2y 0m"
    ensures ExperienceLabel(7) == "7m"
    ensures ExperienceLabel(-5) == "-5m"
  {
  }
}
