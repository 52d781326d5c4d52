/** The skills table: its experience cell, its level badge class and its empty state. */
module SkillsTable {
  import opened Wrappers
  import opened Decimal
  import ProfilePage
  import RecommendationsPage

  /** The experience cell: whole years, then the remaining months if there are any;
      below a year, the months. The JSX keeps the space after "y". */
  function MonthsCell(months: int): string {
    var years := RecommendationsPage.FloorDiv12(months);
    var remaining := RecommendationsPage.JsRem(months, 12);
    if years > 0 then IntToString(years) + "y " + (if remaining > 0 then IntToString(remaining) + "m" else "")
    else IntToString(months) + "m"
  }

  /** For a count of months that is not negative, the years and the remainder the cell
      computes add back up to it, with the remainder below 12. */
  lemma YearsAndRemainder(months: int)
    requires months >= 0
    ensures var years := RecommendationsPage.FloorDiv12(months);
      var remaining := RecommendationsPage.JsRem(months, 12);
      years * 12 + remaining == months && 0 <= remaining < 12 && years >= 0
  {
  }

  /** With a negative count the JavaScript operators do not add back up, which is
      harmless because the cell only uses the remainder when years is positive. */
  lemma NegativeMonthsDoNotSplit()
    ensures RecommendationsPage.FloorDiv12(-5) * 12 + RecommendationsPage.JsRem(-5, 12) == -17
    ensures MonthsCell(-5) == "-5m"
  {
  }

  /** The three shapes of the cell. */
  lemma MonthsCellCases(months: int)
    ensures months < 12 ==> MonthsCell(months) == IntToString(months) + "m"
    ensures months >= 12 && months % 12 > 0 ==>
      MonthsCell(months) == IntToString(months / 12) + "y " + IntToString(months % 12) + "m"
    ensures months >= 12 && months % 12 == 0 ==> MonthsCell(months) == IntToString(months / 12) + "y "
  {
  }

  /** The table cell and the recommendations page's label agree except on whole years,
      where the table drops the "0m" the page shows. */
  lemma CellMatchesExperienceLabel(months: int)
    ensures MonthsCell(months) == RecommendationsPage.ExperienceLabel(months) <==>
      !(months >= 12 && months % 12 == 0)
  {
    if months >= 12 && months % 12 == 0 {
      assert |MonthsCell(months)| != |RecommendationsPage.ExperienceLabel(months)|;
    }
  }

  lemma TwoYearsExample()
    ensures MonthsCell(24) == "2y "
    ensures RecommendationsPage.ExperienceLabel(24) == "2y 0m"
    ensures MonthsCell(30) == "2y 6m"
    ensures MonthsCell(7) == "7m"
  {
  }

  /** The badge class: the level's colours, or `undefined` for any other level (this
      table has no `Other` fallback). */
  function LevelClass(level: string): (cls: Option<string>)
    ensures cls.Some? <==> level in RecommendationsPage.LevelColors
    ensures cls.Some? ==> cls.value == RecommendationsPage.LevelColor(level)
  {
    if level in RecommendationsPage.LevelColors then Some(RecommendationsPage.LevelColors[level]) else None
  }

  datatype TableView = EmptyState | Rows(cells: seq<string>)

  /** The empty-state message replaces the table when there are no skills; otherwise
      each skill has its experience cell (before sorting, filtering and paging). */
  function Render(skills: seq<ProfilePage.Skill>): (view: TableView)
    ensures view.EmptyState? <==> |skills| == 0
    ensures view.Rows? ==> |view.cells| == |skills|
    ensures view.Rows? ==> forall i | 0 <= i < |skills| :: view.cells[i] == MonthsCell(skills[i].months)
  {
    if |skills| == 0 then EmptyState
    else Rows(seq(|skills|, i requires 0 <= i < |skills| => MonthsCell(skills[i].months)))
  }
}
