# Skill-matching engine of JTP_PROJECT, modelled in Dafny

This project models the skill-matching core of the JTP project recommender. The model has two halves.

The Python backend:
- the shared vocabulary: nine skill categories, four level weights and the `skill2idx` index;
- the offline feature encoder of the dataset generator (`make_skill_vector`). It accumulates months × level weight per category;
- point-id derivation and query negation in the vector store;
- the interaction-dataset builder (`generate_interactions` with `sample_random_negatives`). It emits positives, hard negatives and random negatives per project;
- the inference service (`RecommendationService`): an online encoder that overwrites instead of accumulating, tiling, top-K selection over an opaque scorer, and enrichment with project metadata;
- the LLM-extraction bookkeeping: `dedupe_skills` and the `process_resumes` / `process_jobs` row loops.

The Next.js frontend helpers:
- profile list add/delete and request building;
- score and level badges, text truncation and experience labels on the recommendations page;
- validation and the months-input sanitiser of the skill form;
- the months cell and empty state of the skills table.

The model takes the source's own form:
- Loops become methods with loop invariants, proved equal to a specification function. Examples: `MakeSkillVector`, `BuildUserVector` (over an `array`), `DedupeSkills`, `PositivePass`, `GenerateInteractions`, `ProcessResumes`.
- The check-by-check `validateForm` is a straight-line method proved equal to the reference error map `ErrorsOf`.
- The read-only state of the inference service is a class.
- Expression code becomes functions.
- The properties of the specification functions are separate lemmas.

Some collaborators cannot be seen, so they are function-typed parameters:
- the vector-store search;
- the text embedder;
- the two-tower scorer;
- the LLM skill extractor;
- `crypto.randomUUID`.

`random.sample` is a nondeterministic choice of distinct pool members. `np.argsort` is any permutation that sorts the predictions, so ties may come in any order.

Three behaviours of the code that are easy to misread:
- **Random-pool exclusion removes nothing.** The exclusion set of `sample_random_negatives` holds numeric point ids, while the pool holds string keys such as `employee_12`. So the set difference removes nothing when point ids are numbers (`InteractionBuilder.PoolKeepsRecordedEmployees`). Positives can therefore also be drawn as random negatives.
- **No per-project error handling.** `generate_interactions` has no error handling per project: a failing search stops the whole run.
- **Scores of 0 to 1 are always red.** On the recommendations page, a score between 0 and 1 never reaches the yellow or green band. It is displayed ×100 but banded unscaled (`RecommendationsPage.UnitScoresAreRed`).

## Model

| member | source | states |
|---|---|---|
| Constants.CategoriesAreNineDistinctNames | backend/constants.py:4-14 | there are exactly nine category names and they are pairwise distinct |
| Constants.Skill2IdxInvertsCategories | backend/constants.py:18 | `skill2idx` maps the i-th category to i, its domain is exactly the category set, and every value indexes back to its name |
| Constants.SlotOfName | backend/constants.py:18 | a known name has slot c exactly when it is the c-th category |
| Constants.LevelWeightsAreFixed | backend/constants.py:15 | the level weights are exactly Basic 1.0, CollegeResearch 2.0, Professional 3.0, Other 1.5 |
| Constants.EnumerateIndex | backend/constants.py:18 | the dict comprehension's keys are the listed names and each value is a position holding that name |
| OfflineEncoder.GeneratorCopiesMatchConstants | backend/dataset_generation/2_generate_training_dataset.py:19-30 | the generator's own category list and weights are identical to the shared constants |
| Helpers.HelperCopiesMatchConstants | backend/dataset_generation/helpers.py:17-28 | the helper module's copies are identical to the shared constants |
| OfflineEncoder.IndexOf | backend/dataset_generation/2_generate_training_dataset.py:57 | `list.index` returns the first position holding the name |
| OfflineEncoder.MakeSkillVector | backend/dataset_generation/2_generate_training_dataset.py:50-59 | the loop's vector is, slot by slot, the sum of months × weight over the records with that category's name |
| OfflineEncoder.AppendRecord | backend/dataset_generation/2_generate_training_dataset.py:52-58 | one more record adds its contribution to its own category's slot only; an unknown or missing name changes nothing |
| OfflineEncoder.EmptyIsZero | backend/dataset_generation/2_generate_training_dataset.py:51 | an empty list encodes to the zero vector of length 9 |
| OfflineEncoder.SlotTotalConcat | backend/dataset_generation/2_generate_training_dataset.py:52-58 | a slot's total over a concatenation is the sum of the totals of the parts |
| OfflineEncoder.SlotTotalRemove | backend/dataset_generation/2_generate_training_dataset.py:52-58 | removing one record removes exactly its share from a slot |
| OfflineEncoder.SlotTotalPermutation | backend/dataset_generation/2_generate_training_dataset.py:52-58 | a permutation of the records gives the same slot total |
| OfflineEncoder.OrderIndependent | backend/dataset_generation/2_generate_training_dataset.py:50-59 | input order does not matter: permuted records encode to the same vector |
| OfflineEncoder.RepeatsAccumulate | backend/dataset_generation/2_generate_training_dataset.py:58 | a repeated record counts twice (`+=`, no de-duplication) |
| OfflineEncoder.ContributionDefaults | backend/dataset_generation/2_generate_training_dataset.py:55-58 | missing months count as 0 and an unknown or missing level weighs 1.0 |
| OfflineEncoder.ProfessionalPythonExample | backend/dataset_generation/2_generate_training_dataset.py:50-59 | Python/Professional/24 gives 72 in slot 0 and zeros elsewhere |
| VectorPoints.LastSegmentIsSuffix | backend/dataset_generation/2_generate_training_dataset.py:84 | `split("_")[-1]` is the longest underscore-free suffix of the id |
| VectorPoints.LastSegmentAfterUnderscore | backend/dataset_generation/2_generate_training_dataset.py:84 | after the last underscore comes exactly the underscore-free tail |
| VectorPoints.ParsePyIntOfIntToString | backend/dataset_generation/2_generate_training_dataset.py:84 | Python's `int()` reads back the decimal text of any integer |
| VectorPoints.PointIdOfNumberedKey | backend/dataset_generation/2_generate_training_dataset.py:82-86 | an id `prefix_N` gets the integer point id N, whatever the prefix |
| VectorPoints.NumberedKeysHaveDistinctIds | backend/dataset_generation/2_generate_training_dataset.py:82-86 | different numbers give different point ids |
| VectorPoints.EmbedOrZero | backend/dataset_generation/2_generate_training_dataset.py:107 | an empty embedding batch gives the zero vector of length 384, otherwise the first embedding |
| VectorPoints.NegateProperties | backend/dataset_generation/2_generate_training_dataset.py:126-139 | the negated query has the same length and each entry cancels the original; negating twice gives the query back |
| VectorPoints.SkillPoints | backend/dataset_generation/2_generate_training_dataset.py:79-93 | the loop builds one point per employee in order: id from the employee id, its skill vector, its `emp_id` |
| VectorPoints.DescPoints | backend/dataset_generation/2_generate_training_dataset.py:97-109 | the loop builds one text point per employee in order, with the zero vector for an empty embedding |
| VectorPoints.PointListsAt | backend/dataset_generation/2_generate_training_dataset.py:79-109 | the i-th point of each list is the point of the i-th employee |
| VectorPoints.CollectionsShareIds | backend/dataset_generation/2_generate_training_dataset.py:82-104 | both collections give an employee the same point id and `emp_id`; a missing embedding gives the zero vector |
| InteractionBuilder.FirstScoreAt | backend/dataset_generation/2_generate_training_dataset.py:167-168 | `next(...)` yields the score of the first hit carrying the id |
| InteractionBuilder.FirstScoreAbsent | backend/dataset_generation/2_generate_training_dataset.py:167-168 | `next(...)` yields 0.0 when no hit carries the id |
| InteractionBuilder.HybridOfOneSidedHit | backend/dataset_generation/2_generate_training_dataset.py:167-169 | an id found by only one search gets 0.65 or 0.35 of that search's score |
| InteractionBuilder.ThresholdIsInclusive | backend/dataset_generation/2_generate_training_dataset.py:169-170 | a hybrid score of exactly 0.3 is a positive and 0.29 on both lists is not |
| InteractionBuilder.InIds | backend/dataset_generation/2_generate_training_dataset.py:164-179 | an id is in the seen set iff some recorded hit carries it |
| InteractionBuilder.IdsOfConcat | backend/dataset_generation/2_generate_training_dataset.py:179-195 | the ids of concatenated hit lists are the union of their ids |
| InteractionBuilder.PositivesDistinct | backend/dataset_generation/2_generate_training_dataset.py:162-179 | no point id is recorded twice as a positive |
| InteractionBuilder.PositivesSound | backend/dataset_generation/2_generate_training_dataset.py:162-179 | every positive is a candidate with hybrid score at least 0.3 |
| InteractionBuilder.PositivesComplete | backend/dataset_generation/2_generate_training_dataset.py:162-179 | every candidate whose hybrid score reaches 0.3 has its id recorded |
| InteractionBuilder.BelowThresholdStaysUnseen | backend/dataset_generation/2_generate_training_dataset.py:170-179 | an id below the threshold is never added to `seen_users`, so it can later be a hard negative |
| InteractionBuilder.PositivesFirstWins | backend/dataset_generation/2_generate_training_dataset.py:162-165 | each recorded positive is the first candidate with its id |
| InteractionBuilder.FreshHitsProperties | backend/dataset_generation/2_generate_training_dataset.py:182-195 | hard negatives have distinct ids, none of them already seen, each a search hit |
| InteractionBuilder.FreshHitsCover | backend/dataset_generation/2_generate_training_dataset.py:182-195 | after a hard-negative loop every hit's id is seen |
| InteractionBuilder.EmittedIdsDistinct | backend/dataset_generation/2_generate_training_dataset.py:155-195 | within one project no point id is emitted twice across positives and both hard-negative lists |
| InteractionBuilder.PositiveRowsAt | backend/dataset_generation/2_generate_training_dataset.py:171-178 | the i-th positive row carries the i-th positive's `emp_id`, the project id and the hybrid score |
| InteractionBuilder.NegativeRowsAt | backend/dataset_generation/2_generate_training_dataset.py:185-194 | the i-th hard-negative row carries that hit's `emp_id`, the project id and rating 0.0 |
| InteractionBuilder.RandomRows | backend/dataset_generation/2_generate_training_dataset.py:198-201 | one row per sampled key, in sample order, with rating 0.0 |
| InteractionBuilder.SampleRandomNegatives | backend/dataset_generation/2_generate_training_dataset.py:142-145 | the sample has min(num, pool size) distinct keys, all from the pool of employee keys minus the exclusion set; a short pool is taken whole |
| InteractionBuilder.PoolKeepsRecordedEmployees | backend/dataset_generation/2_generate_training_dataset.py:143-144 | with numeric point ids in the exclusion set, the pool is every employee key: string keys and point ids never meet |
| InteractionBuilder.PositivePass | backend/dataset_generation/2_generate_training_dataset.py:162-179 | the positive loop appends the rows of the positives and leaves their ids seen |
| InteractionBuilder.HardNegativePass | backend/dataset_generation/2_generate_training_dataset.py:182-195 | a hard-negative loop appends a 0.0 row per unseen hit and adds those ids to the seen set |
| InteractionBuilder.RandomPass | backend/dataset_generation/2_generate_training_dataset.py:198-201 | the random loop appends one 0.0 row per sampled key |
| InteractionBuilder.FixedPasses | backend/dataset_generation/2_generate_training_dataset.py:153-195 | the searches and three loops of a project produce its positives then both hard-negative lists, with every emitted id seen |
| InteractionBuilder.ProjectInteractions | backend/dataset_generation/2_generate_training_dataset.py:151-201 | one project's block starts with its fixed rows, adds at most 10 random rows from a sample of the pool left by the final `seen_users`, and every row carries the project's id |
| InteractionBuilder.BlockRows | backend/dataset_generation/2_generate_training_dataset.py:171-201 | every row of a block carries the project's id; the positive rows come first with rating at least 0.3 and every later row has rating 0.0 |
| InteractionBuilder.AllBlocksSnoc | backend/dataset_generation/2_generate_training_dataset.py:151-203 | loop-step unfolding used by `GenerateInteractions`: one more project's block extends the per-project description and the concatenation |
| InteractionBuilder.GenerateInteractions | backend/dataset_generation/2_generate_training_dataset.py:148-203 | the output is the concatenation, in project order, of one block per project, and every row carries the id of one of the projects |
| InteractionBuilder.GeneratedRowsCarryProjectIds | backend/dataset_generation/2_generate_training_dataset.py:148-203 | every generated row carries the id of one of the input projects |
| EncoderComparison.NoRecordNoTotal | backend/dataset_generation/2_generate_training_dataset.py:56-58 | a category no record names keeps a 0.0 slot offline |
| EncoderComparison.ContributionIsWeighted | backend/services/predict.py:81 | an accepted record weighs the same in both encoders |
| EncoderComparison.SlotsAgree | backend/services/predict.py:74-82 | with one record per name, the accumulated and the overwritten slot agree |
| EncoderComparison.EncodersAgreeOnDistinctNames | backend/services/predict.py:74-82 | with accepted records of distinct names, both encoders give the same vector |
| EncoderComparison.RepeatedCategoryDiffers | backend/services/predict.py:81 | two identical Python/Professional/24 records give 144 offline and 72 online |
| Predict.Accept | backend/services/predict.py:81 | writing an accepted record keeps the vector's length |
| Predict.OnlineVectorStep | backend/services/predict.py:75-81 | loop-step unfolding used by `BuildUserVector` and `SlotStep`: one more record either fails the encoding with its fault or overwrites its slot |
| Predict.OnlineVectorFailure | backend/services/predict.py:76-80 | the online encoder fails iff some record is missing a key or has an unknown name or level, and then with the fault of the first such record |
| Predict.PrefixFailureIsFinal | backend/services/predict.py:79-80 | once a record raises, the later records do not matter |
| Predict.LastWriteAbsent | backend/services/predict.py:74 | a category no record names keeps its 0.0 |
| Predict.LastWriteIsLast | backend/services/predict.py:81 | otherwise the slot holds months × weight of the last record with that name |
| Predict.SlotStep | backend/services/predict.py:81 | one accepted record changes its own category's slot only |
| Predict.OnlineVectorSlots | backend/services/predict.py:74-82 | with every record accepted the encoding succeeds, has length 9, and each slot is that of the last record with its name (assignment, not sum), 0.0 if none |
| Predict.EmptyEncodesToZero | backend/services/predict.py:74 | an empty skill list encodes to the zero vector |
| Predict.RecommendationService.BuildUserVector | backend/services/predict.py:72-82 | the array loop returns exactly the specified online encoding, including the error of the first rejected record |
| Predict.RecommendationService.EmbedText | backend/services/predict.py:84-87 | an empty embedding batch fails, otherwise the first embedding |
| Predict.Tile | backend/services/predict.py:95-96 | the tile has n_projects rows, each equal to the query vector |
| Predict.Insert | backend/services/predict.py:103 | inserting an index into a sorted index list keeps it sorted and adds exactly that index |
| Predict.ArgSortPrefix | backend/services/predict.py:103 | sorting the first m indices gives a sorted, duplicate-free list of exactly them |
| Predict.ArgSort | backend/services/predict.py:103 | the stable argsort is an argsort: a permutation of the indices in ascending prediction order |
| Predict.SliceStart | backend/services/predict.py:103 | where `[-top_k:]` starts, for positive, zero and negative top_k |
| Predict.Reverse | backend/services/predict.py:103 | `[::-1]` reverses |
| Predict.Gather | backend/services/predict.py:104 | `preds[idxs]` lines the scores up with the indices |
| Predict.TopKOfAnyArgSort | backend/services/predict.py:103 | for any tie order the selection has min(top_k, n) distinct indices (all n for top_k 0), non-increasing scores, and every score returned is at least every score left out |
| Predict.RankingExample | backend/services/predict.py:103 | predictions [0.9, 0.5, 0.7]: top 2 is [0, 2] and top 0 is every index, best first |
| Predict.RecommendationService.Recommend | backend/services/predict.py:89-104 | an encoding error or empty embedding fails, otherwise the indices are a top-K ranking of the predictions and scores[i] = preds[idxs[i]] |
| Predict.RequiredSkills | backend/services/predict.py:122-129 | one metadata object per project skill, with missing fields "Unknown", "Unknown", 0 |
| Predict.Zip | backend/services/predict.py:119 | `zip` pairs the indices and scores up to the shorter length |
| Predict.Enrich | backend/services/predict.py:119-139 | a successful enrichment has one row per ranked pair |
| Predict.EnrichStep | backend/services/predict.py:119-139 | loop-step unfolding used by `RecommendWithMetadata`: one more pair adds the row at the next rank or fails on an unknown index |
| Predict.EnrichRows | backend/services/predict.py:114-139 | enrichment succeeds iff every index names a project; rows have ranks 1..len, the idx-th project key, the score and the defaulted metadata; otherwise it fails on the first unknown index |
| Predict.EnrichFailureIsFinal | backend/services/predict.py:120 | once an index has no project, the rest of the ranking does not matter |
| Predict.RecommendationService.RecommendWithMetadata | backend/services/predict.py:106-141 | the ranked loop returns the ranking's error, or exactly the specified enrichment of the ranking |
| Helpers.InKeySet | backend/dataset_generation/helpers.py:60-62 | a key is in the seen set iff some record has it |
| Helpers.DedupeSkills | backend/dataset_generation/helpers.py:56-64 | the loop with its `seen` set returns the specified de-duplication: each record whose key is new is kept |
| Helpers.DedupSameKeys | backend/dataset_generation/helpers.py:59-63 | input and output have the same set of (skill_name, level, months) keys |
| Helpers.DedupDistinctKeys | backend/dataset_generation/helpers.py:56-64 | no two output records share a key |
| Helpers.DedupIsFirstOccurrences | backend/dataset_generation/helpers.py:59-63 | the output is the records whose key does not occur earlier, in input order |
| Helpers.FirstOccurrencesAreFirst | backend/dataset_generation/helpers.py:59-63 | each kept record is an input record whose key occurs at no earlier position |
| Helpers.DedupOfDistinct | backend/dataset_generation/helpers.py:56-64 | a list without repeated keys is unchanged |
| Helpers.DedupIdempotent | backend/dataset_generation/helpers.py:56-64 | de-duplicating twice is de-duplicating once |
| Helpers.MonthsDifferBothKept | backend/dataset_generation/helpers.py:60 | records that differ only in months are both kept |
| Helpers.RowLimit | backend/dataset_generation/helpers.py:122-124 | the loop visits all rows when max_records is None or 0, min(max_records, n) when positive, none when negative |
| Helpers.ResumeStep | backend/dataset_generation/helpers.py:125-146 | loop-step unfolding used by `ProcessResumes`: a resume row with an empty de-duplicated skill list adds nothing, otherwise it appends one parsed entry, one data row and one mapping entry |
| Helpers.JobStep | backend/dataset_generation/helpers.py:168-189 | loop-step unfolding used by `ProcessJobs`: the same for a job row, with project id idx + 1 |
| Helpers.LoopExit | backend/dataset_generation/helpers.py:122-124 | the loop stops exactly at the row limit, by `break` or by running out of rows |
| Helpers.ProcessResumes | backend/dataset_generation/helpers.py:110-150 | the resume loop's parsed list, data list and mapping are the specified outputs over the rows before the limit |
| Helpers.ProcessJobs | backend/dataset_generation/helpers.py:153-193 | the same for the job loop |
| Helpers.RecordPreserves | backend/dataset_generation/helpers.py:134-146 | one kept row keeps every mapping entry consistent, and the new entry points at the last parsed and data positions |
| Helpers.ResumeOutputsWellFormed | backend/dataset_generation/helpers.py:128-146 | for any extractor every mapping entry indexes a parsed entry with its key and a data row with its id, parsed skill lists are non-empty and duplicate-free, and there is at most one entry per row |
| Helpers.JobOutputsWellFormed | backend/dataset_generation/helpers.py:170-189 | the same for jobs, with every project id in 1..rows and one mapping entry per parsed entry |
| Helpers.KeysGivePointIds | backend/dataset_generation/helpers.py:133-175 | `employee_N` and `project_N` read back as point id N in the vector store |
| ProfilePage.AddSkill | frontend/src/app/profile/page.tsx:48-53 | exactly one skill is appended at the end, the earlier ones unchanged |
| ProfilePage.DeleteSkillMembers | frontend/src/app/profile/page.tsx:57-59 | no remaining skill has the id, and every skill with another id stays iff it was there |
| ProfilePage.DeleteSkillConcat | frontend/src/app/profile/page.tsx:58 | deletion works piecewise, so the kept skills keep their order |
| ProfilePage.DeleteAbsentId | frontend/src/app/profile/page.tsx:58 | an id no skill has leaves the list unchanged |
| ProfilePage.JoinNonEmpty | frontend/src/app/profile/page.tsx:75 | joining non-empty parts is empty iff there are no parts |
| ProfilePage.DescriptionsNonEmpty | frontend/src/app/profile/page.tsx:72-74 | the kept descriptions are non-empty and none is kept iff every description is empty or missing |
| ProfilePage.RequestDescriptionCases | frontend/src/app/profile/page.tsx:72-79 | the request description is the non-empty descriptions joined with ". ", or "No description provided" when there are none |
| ProfilePage.GenerateRecommendations | frontend/src/app/profile/page.tsx:62-81 | generation is refused iff the list is empty; otherwise the request carries every skill, top_k 5 and `RequestDescription` (the non-empty descriptions joined with ". ", or the fallback text, by `RequestDescriptionCases`) |
| ProfilePage.DescriptionExample | frontend/src/app/profile/page.tsx:72-79 | descriptions "Built APIs", none and "Led a team" give "Built APIs. Led a team" |
| RecommendationsPage.ScoreColorBands | frontend/src/app/recommendations/page.tsx:119-124 | scores above 100 are divided by 1000, then at least 50 is green, at least 30 yellow and anything else red |
| RecommendationsPage.UnitScoresAreRed | frontend/src/app/recommendations/page.tsx:119-124 | a score in [0, 1] is always red, though it is displayed as 0 to 100 |
| RecommendationsPage.SixtyPercentIsRed | frontend/src/app/recommendations/page.tsx:119-124 | 0.6 is shown as 60 and is red, while 60 itself is green |
| RecommendationsPage.LevelColorCases | frontend/src/app/recommendations/page.tsx:126-134 | each known level has its colours and any other level gets the "Other" colours |
| RecommendationsPage.LevelLabel | frontend/src/app/recommendations/page.tsx:214 | "CollegeResearch" is shown as "College Research"; every other level is shown as it is |
| RecommendationsPage.TruncatedTextIsPrefix | frontend/src/app/recommendations/page.tsx:143-146 | the text is unchanged when expanded or short enough, otherwise it is its first `length` characters plus "...", of length length + 3 |
| RecommendationsPage.ToggleMatchesTruncation | frontend/src/app/recommendations/page.tsx:339-341 | the toggle shows iff the description is longer than 200 characters; without it the text is shown whole, with it the collapsed view is the 200-character prefix and "...", which differs from the description except when the description is itself that prefix followed by "..." |
| RecommendationsPage.ToggleFlipsOne | frontend/src/app/recommendations/page.tsx:136-141 | toggling flips the project's flag (missing counts as false), leaves the others, and toggling twice restores it |
| RecommendationsPage.ToggleCaption | frontend/src/app/recommendations/page.tsx:347 | the caption is "Show Less" iff expanded, otherwise "Read More" |
| RecommendationsPage.JsRem | frontend/src/app/recommendations/page.tsx:220 | JavaScript's `%` agrees with the mathematical remainder on non-negative numbers and is non-positive on negative ones |
| RecommendationsPage.ExperienceLabelSplits | frontend/src/app/recommendations/page.tsx:219-221 | from 12 months the label is "Yy Rm" with Y·12 + R = months and R < 12, even when R is 0; below 12 it is "Nm" |
| RecommendationsPage.ExperienceLabelExamples | frontend/src/app/recommendations/page.tsx:219-221 | 30 → "2y 6m", 24 → "2y 0m", 7 → "7m", -5 → "-5m" |
| SkillForm.TrimStartBlank | frontend/src/components/skill-form.tsx:57 | trimming the front leaves nothing iff the text is all whitespace |
| SkillForm.TrimEndEmpty | frontend/src/components/skill-form.tsx:57 | trimming the end of a text that starts with a non-space leaves it non-empty |
| SkillForm.TrimEmptyIffBlank | frontend/src/components/skill-form.tsx:57 | `trim()` gives "" iff every character is JavaScript whitespace |
| SkillForm.ErrorsOf | frontend/src/components/skill-form.tsx:42-60 | an error is recorded for exactly the failing fields, with that field's message |
| SkillForm.ValidateForm | frontend/src/components/skill-form.tsx:42-63 | the check-by-check error object is the specified one and the form is valid iff it is empty |
| SkillForm.SameErrors | frontend/src/components/skill-form.tsx:43-60 | an error object with the right keys and messages is the specified one |
| SkillForm.NoErrorsIffValid | frontend/src/components/skill-form.tsx:42-62 | no error iff skill and level are non-empty, months at least 0 and the description has a non-whitespace character |
| SkillForm.AsState | frontend/src/components/skill-form.tsx:61 | the stored errors have the same fields and messages |
| SkillForm.HandleSubmit | frontend/src/components/skill-form.tsx:65-70 | the form is submitted iff validation passes, and the errors are stored either way |
| SkillForm.InitialFormFailsOnDescription | frontend/src/components/skill-form.tsx:33-59 | the initial Python/Basic/5/"" form fails on the description only |
| SkillForm.UpdateFieldFrame | frontend/src/components/skill-form.tsx:72-77 | the named field takes the new value and the others stay; a set error of that field becomes undefined, and otherwise the errors are untouched |
| SkillForm.LeadingZeros | frontend/src/components/skill-form.tsx:120 | the run of leading zeros is maximal |
| SkillForm.ZerosRemoved | frontend/src/components/skill-form.tsx:120 | the regex removes only zeros, and only when a digit follows them |
| SkillForm.SanitizeRemovesAllMatches | frontend/src/components/skill-form.tsx:120 | sanitising drops leading zeros only, leaves no zero before a digit, and is idempotent |
| SkillForm.DigitPrefix | frontend/src/components/skill-form.tsx:121 | the digit run `parseInt` reads is a prefix of the text and is empty iff the text does not start with a digit |
| SkillForm.OneZeroLess | frontend/src/components/skill-form.tsx:121 | a leading zero before a digit does not change what `parseInt` reads |
| SkillForm.DropZeros | frontend/src/components/skill-form.tsx:121 | dropping leading zeros before a digit does not change what `parseInt` reads |
| SkillForm.SanitizeKeepsParse | frontend/src/components/skill-form.tsx:120-121 | the sanitiser never changes the parsed number |
| SkillForm.MonthsFromInput | frontend/src/components/skill-form.tsx:120-121 | an unparsable input gives 0, otherwise the parsed integer |
| SkillForm.LeadingZerosDropped | frontend/src/components/skill-form.tsx:120-121 | "007" gives 7 |
| SkillForm.LoneZeroKept | frontend/src/components/skill-form.tsx:120-121 | "0" gives 0 |
| SkillForm.EmptyInputIsZero | frontend/src/components/skill-form.tsx:121 | an empty input gives 0 |
| SkillForm.LettersInputIsZero | frontend/src/components/skill-form.tsx:121 | "abc" gives 0 |
| SkillForm.NegativeMonthsPass | frontend/src/components/skill-form.tsx:121 | "-3" gives -3, which validation then rejects |
| SkillsTable.YearsAndRemainder | frontend/src/components/skills-data-table.tsx:97-99 | for non-negative months, years·12 + remainder = months with 0 ≤ remainder < 12 |
| SkillsTable.NegativeMonthsDoNotSplit | frontend/src/components/skills-data-table.tsx:97-108 | for -5 months, floor and truncating remainder give -17, not -5; the cell shows "-5m" |
| SkillsTable.MonthsCellCases | frontend/src/components/skills-data-table.tsx:96-108 | below 12 the cell is "Nm"; otherwise "Yy Rm", with the "Rm" part dropped when the remainder is 0 |
| SkillsTable.CellMatchesExperienceLabel | frontend/src/components/skills-data-table.tsx:101-106 | the cell equals the recommendations page's label iff months is not a whole number of years of at least one year |
| SkillsTable.TwoYearsExample | frontend/src/components/skills-data-table.tsx:101-106 | 24 months is "2y " in the table but "2y 0m" on the recommendations page; 30 is "2y 6m", 7 is "7m" |
| SkillsTable.LevelClass | frontend/src/components/skills-data-table.tsx:121-131 | known levels get the same colours as the recommendations page; an unknown level gets no class |
| SkillsTable.Render | frontend/src/components/skills-data-table.tsx:187-197 | an empty list renders the empty state, otherwise one months cell per skill |

## Left out

- Qdrant: collection creation, upsert, search and cosine similarity. `search` is an abstract function returning ranked hits.
- The fastembed text embedder is an abstract function returning zero or more vectors.
- The two-tower network and `model.predict` are an opaque scorer. Numeric model code is out of scope.
- Floating point: scores and weights are exact reals.
- InteractionBuilder.PositiveRows: the rating is the exact hybrid score, not `round(hybrid, 4)`. Float rounding is not modelled.
- VectorPoints.PointIdOf: the `uuid5` fallback id is named by the string it hashes. The hash is not computed, so distinct fallback ids are not distinguished from colliding ones.
- VectorPoints.ParsePyInt: `int()` accepts ASCII digits and whitespace only. It leaves out Unicode digits, Unicode whitespace and underscores between digits.
- Predict.ArgSort is one stable argsort. `np.argsort`'s own tie order is not modelled; `Predict.TopKOfAnyArgSort` holds for every tie order.
- `random.sample` is modelled as any choice of distinct pool members, not as a distribution.
- File, JSON and CSV I/O: `main`, `write_json`, `pd.read_csv`, `eval(row["labels"])` and the `load_projects` cache. Rows arrive already parsed, with labels as a list of strings.
- `recognize_skills`, the LLM call, is an abstract function. Its error handling returns an empty list and is part of that abstraction.
- Logging and progress bars.
- The HTTP routes, apps, schemas, ORM and ingestion scripts.
- React state, localStorage/sessionStorage, toasts, routing, the dialog wrapper and rendering markup.
- The TanStack table's sorting, filtering and pagination.
- `crypto.randomUUID` is a parameter of `ProfilePage.AddSkill`.
- RecommendationsPage.LevelColor: JavaScript property lookup also finds inherited keys such as `constructor`. Only the four own keys are modelled.
- `toFixed(0)` rounding of the displayed score: the displayed value is computed, not its text.
- SkillForm.JsParseInt: only decimal input is modelled. The "0x" hexadecimal prefix is not, though `parseInt` with no radix accepts it.
- String lengths count characters, not UTF-16 code units.
- The payload fields other than `emp_id`. They are not read back by the modelled code.
- The embedding shape: the model does not check that embeddings have 384 entries.
- Skill records are modelled with `Option` fields, which do not tell a missing key from an explicit JSON `null`. The offline encoder (`OfflineEncoder.Contribution`) and `Predict.Metadata` treat both as the default, although `sk.get("months", 0)` on `"months": null` raises a TypeError and `SkillMetadata(months=None)` fails validation. The records the pipeline builds come from validated `Skill` objects, so they never hold such a `null`.
- SkillsTable.MonthsCell takes integer months. The table's `as number` cast could also see fractional months, which are not modelled.
