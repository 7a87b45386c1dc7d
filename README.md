# JOB-SEEK core logic in Dafny

This project models the parts of the JOB-SEEK job board that compute something, and proves
properties about them:

- **The recommendation scorer** (`getJobRecommendations`). Each catalog job is scored by how
  many of the candidate's skills occur among the words of its requirements text. The catalog is
  then sorted by score, highest first, and the first three jobs are returned.
- **The profile page's editing logic.** This covers:
  - the skill list, which is deduplicated and trimmed on add and filtered on remove;
  - the four record lists (academic records, certifications, experiences, portfolio items), each with add, update-by-id and remove-by-id;
  - the comma-separated technologies field;
  - the profile-picture guard and the upload handlers;
  - saving the profile.

  The component is the class `ProfilePage.ProfileEditor`. It has one method per handler, and each method is specified against the pure list functions beside it.
- **The string logic of the profile API.** This covers:
  - which database errors mean "no profile yet";
  - how uploaded files are named: a random component, sanitised titles and the extension;
  - the shape of a public storage URL;
  - the object name a delete request takes from such a URL.
- **The job card's derived values.** These are the salary fallback chain, the description preview, the posted-date label, the metadata list and the `saved` flag.

The database, storage and authentication calls are not modelled. Each operation instead receives what such a call returned, as a parameter. For example, `ApiProfile.QueryResult` is the `{ data, error }` pair of a query, and `storageFailed` stands for a storage error. `Math.random()` is a real parameter `u` in [0, 1). `Date.now()` is an integer parameter `now`.

Modules:

| file | module | contents |
|---|---|---|
| wrappers.dfy | `Wrappers` | `Option`, `Result` |
| sequences.dfy | `Sequences` | `Filter` and its lemmas (order, multiplicities, concatenation) |
| jsvalues.dfy | `JsValues` | JavaScript values, truthiness, `??` |
| text.dfy | `Text` | `trim`, ASCII `toLowerCase`, `split` on one character, `join`, last and first segment |
| recommendations.dfy | `ApiRecommendations` | the scorer |
| apiprofile.dfy | `ApiProfile` | the profile API's error rule, file names and URLs |
| profile_page.dfy | `ProfilePage` | the list transforms and the `ProfileEditor` class |
| job_card.dfy | `JobCard` | the job card's derived values and the `SavedFlag` class |

### Behaviour worth knowing

- **An empty catalog.** An empty job array is truthy (src/api/apiRecommendations.js:19), so it gives an empty list rather than `null` (`ApiRecommendations.EmptyCatalogGivesEmptyList`).
- **Duplicate skills.** The filter over the skill list counts each entry (src/api/apiRecommendations.js:28-30), so a skill listed twice scores twice (`ApiRecommendations.AppendSkillScore`).
- **Empty tokens.** The split at src/api/apiRecommendations.js:27 keeps an empty first or last token when the requirements start or end with a separator, and an empty skill entry then matches that token (`ApiRecommendations.EmptySkillMatchesLeadingSeparator`).
- **Ties.** The comparator at src/api/apiRecommendations.js:38 returns 0 on equal scores and `Array.prototype.sort` is stable since the 2019 edition of ECMA-262, so ties keep catalog order (`ApiRecommendations.TiesKeepCatalogOrder`).
- **A falsy salary range.** The `??` chain at src/components/job-card.jsx:67 stops at any present value, so a salary range of `""` wins it, and the truthiness filter at src/components/job-card.jsx:71-84 then drops the salary entry altogether (`JobCard.FalsySalaryRangeHidesSalary`).
- **Empty descriptions.** The fallback at src/components/job-card.jsx:68-69 applies only to a missing description; an empty one previews as the empty string (`JobCard.DescriptionPreview`).

## Model

| member | source | states |
|---|---|---|
| ApiRecommendations.Tokens | src/api/apiRecommendations.js:27 | the split yields at least one piece; no piece contains `,`, `.` or whitespace; only the first and last pieces can be empty; for a non-empty text the first piece is empty exactly when the text starts with a separator (the empty text is not covered by the contract) |
| ApiRecommendations.SeparatorRuns | src/api/apiRecommendations.js:27 | the split consumes one non-empty run of separators between each pair of adjacent pieces |
| ApiRecommendations.TokensReassemble | src/api/apiRecommendations.js:27 | the split loses nothing: putting the pieces back between the runs gives the text |
| ApiRecommendations.TokensOfWeave | src/api/apiRecommendations.js:27 | conversely, separator-free words joined by separator runs split back into exactly those words |
| ApiRecommendations.TokensOfWord | src/api/apiRecommendations.js:27 | a non-empty word without separators is a single token |
| ApiRecommendations.TokensAfterRun | src/api/apiRecommendations.js:27 | a leading separator run yields one empty first token |
| ApiRecommendations.TokensAfterWord | src/api/apiRecommendations.js:27 | a word before a separator run is the first token |
| ApiRecommendations.JobScore | src/api/apiRecommendations.js:23-30 | a score lies between 0 and the number of skill entries; it is 0 when the skills are missing or the requirements are missing or empty |
| ApiRecommendations.AppendSkillScore | src/api/apiRecommendations.js:28-30 | appending a skill adds exactly one to the score when it matches a token and nothing otherwise, so it never lowers a score; duplicates count each time |
| ApiRecommendations.ScoreIgnoresSkillOrder | src/api/apiRecommendations.js:28-30 | any permutation of the skill list gives the same score |
| ApiRecommendations.ScoreIgnoresCase | src/api/apiRecommendations.js:27-29 | lower-casing the skills or the requirements changes no score |
| ApiRecommendations.MatchCountIgnoresCase | src/api/apiRecommendations.js:28-29 | the number of matching skills is the same for the skills and for their lower-cased forms |
| ApiRecommendations.CaseInsensitiveExample | src/api/apiRecommendations.js:27-29 | the skill "Python" matches the requirement "python" |
| ApiRecommendations.EmptySkillMatchesLeadingSeparator | src/api/apiRecommendations.js:27-30 | an empty skill entry matches the empty token a leading comma produces |
| ApiRecommendations.Insert | src/api/apiRecommendations.js:38 | inserting a position into a ranked list gives a ranked list with that position added and no other change |
| ApiRecommendations.RankFrom | src/api/apiRecommendations.js:38 | the positions from `from` onwards, each exactly once, in ranked order |
| ApiRecommendations.Ranking | src/api/apiRecommendations.js:38 | the order the stable sort puts the catalog in: a permutation of all positions, where higher scores come first and equal scores keep catalog order |
| ApiRecommendations.SortByScore | src/api/apiRecommendations.js:38 | the sort keeps the length, and its scores are non-increasing |
| ApiRecommendations.ScoreJobs | src/api/apiRecommendations.js:22-34 | one entry per catalog job, in catalog order, each the job itself with its own score attached |
| ApiRecommendations.GetJobRecommendations | src/api/apiRecommendations.js:12-39 | `null` exactly when the profile or the job list is missing; otherwise `min(3, number of jobs)` jobs with non-increasing scores, where zero-score jobs fill any remaining slots |
| ApiRecommendations.SortedPositions | src/api/apiRecommendations.js:33-38 | the k-th sorted job is the scored catalog job at the k-th ranked position |
| ApiRecommendations.RecommendationsAreCatalogJobs | src/api/apiRecommendations.js:22-39 | each recommendation is a distinct catalog job, unchanged, with its own score attached |
| ApiRecommendations.TiesKeepCatalogOrder | src/api/apiRecommendations.js:38 | recommendations with equal scores appear in catalog order |
| ApiRecommendations.RecommendationsAreTopScores | src/api/apiRecommendations.js:38-39 | a job left out scores no more than any job returned |
| ApiRecommendations.EmptyCatalogGivesEmptyList | src/api/apiRecommendations.js:19 | an empty catalog gives an empty list, not `null` |
| ApiRecommendations.ScoreOfWeave | src/api/apiRecommendations.js:26-30 | against a text that lower-cases to words woven with separator runs, the score is the number of skills whose lower-cased form is one of those words |
| ApiRecommendations.ExampleScoreReactNodeSql | src/api/apiRecommendations.js:26-30 | the skills `react`, `sql` score 2 against "React, Node.js, SQL" |
| ApiRecommendations.ExampleScoreJavaSpring | src/api/apiRecommendations.js:26-30 | the same skills score 0 against "Java, Spring" |
| ApiRecommendations.ExampleScoreSqlAdmin | src/api/apiRecommendations.js:26-30 | the same skills score 1 against "SQL database admin" |
| ApiRecommendations.ExampleScoring | src/api/apiRecommendations.js:22-34 | the scored catalog of three jobs carries their scores in catalog order |
| ApiRecommendations.ExampleSorting | src/api/apiRecommendations.js:38 | scores 2, 0, 1 sort to 2, 1, 0 |
| ApiRecommendations.ExampleRecommendation | src/api/apiRecommendations.js:37-39 | three jobs scoring 2, 0, 1 are all returned, in the order 2, 1, 0 |
| ApiRecommendations.WorkedExample | src/api/apiRecommendations.js:12-39 | the whole operation on a three-job catalog returns the jobs ordered by their scores 2, 1, 0 |
| Sequences.Filter | src/api/apiRecommendations.js:28-30 | filtering keeps exactly the elements that pass, and no more than the input |
| Sequences.FilterIsSubsequence | src/pages/profile-page.jsx:280 | filtering keeps the relative order of the kept elements |
| Sequences.FilterMultiset | src/pages/profile-page.jsx:280 | filtering keeps each passing value as often as it occurred, and drops every other value entirely |
| Sequences.FilterConcat | src/api/apiRecommendations.js:28-30 | filtering distributes over concatenation |
| Sequences.FilterCountPermutation | src/api/apiRecommendations.js:28-30 | the number of kept elements does not depend on the input's order |
| Sequences.FilterKeepsAll | src/pages/profile-page.jsx:1531-1534 | a filter that drops nothing returns its input |
| Sequences.FilterNoDuplicates | src/pages/profile-page.jsx:280 | filtering a list without duplicates leaves none |
| JsValues.Coalesce | src/components/job-card.jsx:67 | `a ?? b` is `a` when `a` is neither `null` nor `undefined`, and `b` when it is; the result is nullish only when both operands are |
| Text.LeadingWhitespace | src/pages/profile-page.jsx:273 | counts exactly the leading whitespace: all of it is whitespace and the next character, if any, is not |
| Text.TrailingWhitespace | src/pages/profile-page.jsx:273 | counts exactly the trailing whitespace: all of it is whitespace and the character before it, if any, is not |
| Text.Trim | src/pages/profile-page.jsx:273 | the result has no whitespace at either end, and is the middle of the input with only whitespace cut off around it |
| Text.TrimOfTrimmed | src/pages/profile-page.jsx:1533 | a string with nothing to trim is its own trim |
| Text.LeadingWhitespaceAfter | src/pages/profile-page.jsx:1533 | whitespace in front of a string adds its length to the leading whitespace count |
| Text.TrimAfterWhitespace | src/pages/profile-page.jsx:1533 | leading whitespace does not change the trim |
| Text.Lower | src/api/apiRecommendations.js:27 | lower-casing keeps the length, maps each ASCII upper-case letter to its lower-case letter and keeps every other character |
| Text.LowerIdempotent | src/api/apiRecommendations.js:29 | lower-casing twice is lower-casing once |
| Text.SplitOn | src/pages/profile-page.jsx:1532 | a split on one character yields at least one piece, and none contains the separator |
| Text.SplitOnWithoutSeparator | src/pages/profile-page.jsx:1532 | a string without the separator is one piece |
| Text.Join | src/pages/profile-page.jsx:1526 | joining nothing gives the empty string and one part gives that part; a join starts with the first part, followed by the delimiter and the second part when there is one |
| Text.JoinSplitOn | src/pages/profile-page.jsx:1532 | joining the pieces with the separator gives back the string |
| Text.SplitOnJoin | src/pages/profile-page.jsx:1532 | splitting a join of separator-free pieces gives back the pieces |
| Text.SplitOnPrefix | src/pages/profile-page.jsx:1532 | a separator-free prefix followed by the separator is the first piece |
| Text.JoinLast | src/api/apiProfile.js:268 | the last piece of a join follows the last delimiter |
| Text.LastSegment | src/api/apiProfile.js:268 | the last piece of a split is a separator-free suffix, preceded by the separator when shorter than the input; it equals the input exactly when the input has no separator |
| Text.LastSegmentAfterSeparator | src/api/apiProfile.js:239 | whatever precedes the last separator is discarded |
| Text.FirstSegmentOfPrefix | src/components/job-card.jsx:69 | a separator-free prefix followed by the separator is the first segment |
| Text.FirstSegment | src/components/job-card.jsx:69 | the first piece of a split is a separator-free prefix, followed by the separator when shorter than the input |
| ApiProfile.CheckProfileExists | src/api/apiProfile.js:17-23 | any error other than "no rows" (`PGRST116`) answers false; otherwise the answer is whether a row came back |
| ApiProfile.GetProfile | src/api/apiProfile.js:41-46 | `null` on any error, the row otherwise |
| ApiProfile.UpsertProfile | src/api/apiProfile.js:64-69 | fails with "Error saving profile" exactly when the database reports an error, and returns the data otherwise |
| ApiProfile.UpdateProfile | src/api/apiProfile.js:89-94 | fails with "Error updating profile" exactly when the database reports an error |
| ApiProfile.CreateProfile | src/api/apiProfile.js:105-110 | fails with "Error creating profile" exactly when the database reports an error |
| ApiProfile.ErrorsReadAsNullButWritesThrow | src/api/apiProfile.js:17-110 | on an error, the read answers `null`, the existence check answers false unless the error is "no rows", and every write fails |
| ApiProfile.Sanitize | src/api/apiProfile.js:179 | sanitising keeps the length and keeps ASCII letters and digits in place; every other character becomes `-`, so the output holds only letters, digits and `-` |
| ApiProfile.SanitizeIdempotent | src/api/apiProfile.js:211 | sanitising twice is sanitising once |
| ApiProfile.DecimalString | src/api/apiProfile.js:125 | the rendering of a number is a non-empty string of digits without a leading zero |
| ApiProfile.ParseDecimalString | src/api/apiProfile.js:125 | reading the decimal rendering back gives the number rendered, for every natural number |
| ApiProfile.RandomComponent | src/api/apiProfile.js:124 | the random component is an integer in [0, 90000): `u * 90000` rounded down |
| ApiProfile.Extension | src/api/apiProfile.js:239 | the extension contains no `.`; it is a suffix of the file name, preceded by `.` when shorter than the name, and the whole name when the name has no `.`: the text after the last `.` |
| ApiProfile.ResumeFileName | src/api/apiProfile.js:125 | the name is exactly `resume-`, the random component and the user id, each followed by `-`, then the uploaded file's name |
| ApiProfile.ResumeFileNameInjective | src/api/apiProfile.js:124-125 | for a fixed user id and file name, two resume names are equal exactly when their random components are, so distinct random components give distinct names |
| ApiProfile.ExperienceLogoFileName | src/api/apiProfile.js:152 | the name is exactly `exp-logo-` and the random component followed by `-`, then the unsanitised company name |
| ApiProfile.PortfolioFileName | src/api/apiProfile.js:179-180 | the name carries the sanitised title after the user id, then `-` and the file name, and nothing else |
| ApiProfile.CertificationFileName | src/api/apiProfile.js:211-212 | the name carries the sanitised certificate name after the user id, then `-` and the file name, and nothing else |
| ApiProfile.ProfilePictureFileName | src/api/apiProfile.js:239-240 | the name is exactly `profile-pic-`, the random component, `-`, the user id and `.`, then the upload's extension |
| ApiProfile.ProfilePictureKeepsExtension | src/api/apiProfile.js:239-240 | the stored picture has the same extension as the uploaded file, whatever the user id |
| ApiProfile.PublicUrl | src/api/apiProfile.js:136 | a public URL is exactly the project URL, the public-object path, the bucket and `/`, then the file name |
| ApiProfile.UploadResume | src/api/apiProfile.js:121-138 | fails with "Error uploading resume" exactly on a storage error; otherwise returns the public URL of the resume name in `resumes` |
| ApiProfile.UploadExperienceLogo | src/api/apiProfile.js:148-165 | fails with "Error uploading company logo" exactly on a storage error; otherwise returns the public URL in `experience-logos` |
| ApiProfile.UploadPortfolioItem | src/api/apiProfile.js:175-193 | fails with "Error uploading portfolio item" exactly on a storage error; otherwise returns the public URL in `portfolios` |
| ApiProfile.UploadCertification | src/api/apiProfile.js:203-225 | fails with "Error uploading certification" exactly on a storage error; otherwise returns the public URL in `certifications` |
| ApiProfile.UploadProfilePicture | src/api/apiProfile.js:235-255 | fails with "Error uploading profile picture" exactly on a storage error; otherwise returns the public URL in `profile-pictures` |
| ApiProfile.StorageFileName | src/api/apiProfile.js:268 | the name a delete takes is the text after the last `/`, and holds no `/` |
| ApiProfile.DeleteStorageFile | src/api/apiProfile.js:264-278 | the object removed is the last `/`-segment of the path; the delete fails with "Error deleting file" exactly when storage reports an error for that name, and answers true otherwise |
| ApiProfile.StorageFileNameOfPublicUrl | src/api/apiProfile.js:268 | the name taken from a public URL is the stored name exactly when that name has no `/` |
| ApiProfile.DeleteFindsResume | src/api/apiProfile.js:125-136 | a resume's URL yields its stored name when the user id and the file name have no `/` |
| ApiProfile.DeleteFindsPortfolioItem | src/api/apiProfile.js:179-191 | a portfolio image's URL yields its stored name, whatever the title, which is sanitised |
| ApiProfile.DeleteFindsCertification | src/api/apiProfile.js:211-223 | a certification's URL yields its stored name, whatever the certificate name |
| ApiProfile.DeleteFindsProfilePicture | src/api/apiProfile.js:239-253 | a profile picture's URL yields its stored name when the user id and the file name have no `/` |
| ApiProfile.DeleteFindsExperienceLogo | src/api/apiProfile.js:152-163 | a logo's URL yields its stored name exactly when the unsanitised company name has no `/` |
| ProfilePage.UpdateById | src/pages/profile-page.jsx:300-304 | the update keeps the length; records with another id are unchanged; matching records get exactly `field` set to `value` and keep all other fields; ids are kept unless `field` is the id |
| ProfilePage.RemoveById | src/pages/profile-page.jsx:306-308 | drops exactly the records with that id, and keeps the others in their order |
| ProfilePage.RemoveByIdCounts | src/pages/profile-page.jsx:333-335 | every other record is kept as often as it occurred |
| ProfilePage.UpdateThenRemove | src/pages/profile-page.jsx:385-393 | updating a non-id field of a record and then removing it is the same as removing it |
| ProfilePage.FindById | src/pages/profile-page.jsx:340 | finds the first record with that id, and finds none exactly when no record has it |
| ProfilePage.TextOr | src/pages/profile-page.jsx:347 | the field's text when the field holds a non-empty string, and the fallback in every other case |
| ProfilePage.BlankAcademic | src/pages/profile-page.jsx:284-298 | the new academic record has the given id, the empty string in each of the seven academic fields, and no other field |
| ProfilePage.BlankCertification | src/pages/profile-page.jsx:311-325 | the new certification has the given id, the empty string in each of the seven certification fields, and no other field |
| ProfilePage.BlankExperience | src/pages/profile-page.jsx:366-383 | the new experience has the given id, the empty string in its eight text fields, `false` in `is_current`, an empty `skills_used` list, and no other field |
| ProfilePage.BlankPortfolioItem | src/pages/profile-page.jsx:420-434 | the new portfolio item has the given id, the empty string in its six text fields, an empty `technologies` list, and no other field |
| ProfilePage.AddThenRemove | src/pages/profile-page.jsx:284-308 | a record added under an id no other record has is removed by that id, and nothing else is |
| ProfilePage.RepeatedTimestampSharesId | src/pages/profile-page.jsx:288 | two records added in the same millisecond share an id, so an update or a remove reaches both |
| ProfilePage.WithSkill | src/pages/profile-page.jsx:272-277 | appends the trimmed entry when it is non-empty and new, and otherwise changes nothing; the old list stays a prefix, and a list without duplicates keeps none |
| ProfilePage.WithoutSkill | src/pages/profile-page.jsx:279-281 | removes every occurrence of the skill and keeps the rest in order; a list without duplicates keeps none |
| ProfilePage.WithoutSkillCounts | src/pages/profile-page.jsx:280 | every other skill is kept as often as it occurred |
| ProfilePage.AddThenRemoveSkill | src/pages/profile-page.jsx:272-281 | removing the skill just added restores the list |
| ProfilePage.ParseTechnologies | src/pages/profile-page.jsx:1531-1534 | the result is the trimmed comma-separated pieces of the text, in order, with the empty ones dropped: a subsequence of the trimmed pieces holding each non-empty piece as often as it occurs and nothing else; no entry is empty, has whitespace at either end, or contains a comma |
| ProfilePage.ShowTechnologies | src/pages/profile-page.jsx:1526 | the displayed text is empty for no technologies; otherwise it is the technologies joined at bare commas, each after the first preceded by a space |
| ProfilePage.ShownPiecesTrim | src/pages/profile-page.jsx:1526-1534 | the comma-separated pieces of a displayed non-empty list, once trimmed, are the technologies |
| ProfilePage.ParseShownTechnologies | src/pages/profile-page.jsx:1526-1534 | the field's display, the technologies joined by ", ", parses back to the list |
| ProfilePage.TechnologiesValue | src/pages/profile-page.jsx:1531-1534 | the stored value is a list of the parsed strings, in order |
| ProfilePage.PictureRejection | src/pages/profile-page.jsx:219-228 | a file is accepted exactly when its type starts with `image/` and its size is at most 5·1024·1024 bytes; otherwise the rejection carries the source's message |
| ProfilePage.ProfileEditor.constructor | src/pages/profile-page.jsx:75-91 | the component starts with no profile, an empty message, empty lists and empty URLs |
| ProfilePage.ProfileEditor.SetNewSkill | src/pages/profile-page.jsx:807 | typing sets the pending skill and nothing else |
| ProfilePage.ProfileEditor.AddSkill | src/pages/profile-page.jsx:272-277 | an accepted entry is appended trimmed and the box is cleared; otherwise nothing changes; a list without duplicates keeps none |
| ProfilePage.ProfileEditor.RemoveSkill | src/pages/profile-page.jsx:279-281 | the skill is gone and the rest keep their order; nothing else changes |
| ProfilePage.ProfileEditor.AddAcademic | src/pages/profile-page.jsx:284-298 | one blank academic record is appended; nothing else changes |
| ProfilePage.ProfileEditor.UpdateAcademic | src/pages/profile-page.jsx:300-304 | the academic list is updated by id; nothing else changes |
| ProfilePage.ProfileEditor.RemoveAcademic | src/pages/profile-page.jsx:306-308 | the academic list loses the records with that id; nothing else changes |
| ProfilePage.ProfileEditor.AddCertification | src/pages/profile-page.jsx:311-325 | one blank certification is appended; nothing else changes |
| ProfilePage.ProfileEditor.UpdateCertification | src/pages/profile-page.jsx:327-331 | the certification list is updated by id; nothing else changes |
| ProfilePage.ProfileEditor.RemoveCertification | src/pages/profile-page.jsx:333-335 | the certification list loses the records with that id; nothing else changes |
| ProfilePage.ProfileEditor.AddExperience | src/pages/profile-page.jsx:366-383 | one blank experience is appended; nothing else changes |
| ProfilePage.ProfileEditor.UpdateExperience | src/pages/profile-page.jsx:385-389 | the experience list is updated by id; nothing else changes |
| ProfilePage.ProfileEditor.RemoveExperience | src/pages/profile-page.jsx:391-393 | the experience list loses the records with that id; nothing else changes |
| ProfilePage.ProfileEditor.AddPortfolioItem | src/pages/profile-page.jsx:420-434 | one blank portfolio item is appended; nothing else changes |
| ProfilePage.ProfileEditor.UpdatePortfolioItem | src/pages/profile-page.jsx:436-440 | the portfolio list is updated by id; nothing else changes |
| ProfilePage.ProfileEditor.RemovePortfolioItem | src/pages/profile-page.jsx:442-444 | the portfolio list loses the records with that id; nothing else changes |
| ProfilePage.ProfileEditor.EditTechnologies | src/pages/profile-page.jsx:1527-1535 | the item's technologies become the parsed list; nothing else changes |
| ProfilePage.ProfileEditor.HandleProfilePicUpload | src/pages/profile-page.jsx:214-250 | without a file or a signed-in user nothing changes; a rejected file only sets its error message; an accepted file is uploaded and sets the picture URL and a success message, or a failure message; the picture changes only for an accepted file whose upload succeeded |
| ProfilePage.ProfileEditor.HandleResumeUpload | src/pages/profile-page.jsx:252-269 | without a file or a signed-in user nothing changes; otherwise the resume URL and a success message, or a failure message |
| ProfilePage.ProfileEditor.HandleCertificationFileUpload | src/pages/profile-page.jsx:337-363 | nothing changes without a file, a user or a certification with that id; otherwise the upload uses the certificate's name or "certificate", and on success sets its `file_url` |
| ProfilePage.ProfileEditor.HandleExperienceLogoUpload | src/pages/profile-page.jsx:395-417 | needs a session but no user; the upload uses the company name or "company", and on success sets `company_logo_url` |
| ProfilePage.ProfileEditor.HandlePortfolioImageUpload | src/pages/profile-page.jsx:446-469 | the upload uses the item's title or "project", and on success sets `image_url` |
| ProfilePage.ProfileEditor.SaveProfile | src/pages/profile-page.jsx:173-211 | an existing profile is upserted and a new one created, each with its message; only a successful create marks the profile as existing, and it never becomes unmarked |
| JobCard.SalaryLabel | src/components/job-card.jsx:67 | the label is the first of salary range, salary and compensation that is neither `null` nor `undefined`, and is nullish only when all three are |
| JobCard.FalsySalaryRangeHidesSalary | src/components/job-card.jsx:67-79 | a present but falsy salary range becomes the label, so no salary entry is shown |
| JobCard.DescriptionPreview | src/components/job-card.jsx:68-69 | the fallback text is used only for a missing description; otherwise the preview is the prefix before the first `.`, and the whole description when it has none |
| JobCard.PostedLabel | src/components/job-card.jsx:62-65 | "Recently added" when `created_at` is falsy, the formatted date otherwise |
| JobCard.Metadata | src/components/job-card.jsx:71-84 | two or three entries: the employment type first, defaulting to "Flexible"; the salary entry exactly when the salary label is truthy; the posted label last |
| JobCard.SavedAfter | src/components/job-card.jsx:58-60 | unchanged while no answer has arrived; false for `null`; otherwise whether rows came back |
| JobCard.SavedAfterIdempotent | src/components/job-card.jsx:58-60 | running the effect again on the same answer changes nothing |
| JobCard.SavedFlag.constructor | src/components/job-card.jsx:31 | the flag starts as `savedInit` |
| JobCard.SavedFlag.OnSavedJobChange | src/components/job-card.jsx:58-60 | the flag follows the answer as `SavedAfter` says |

## Left out

- Database, storage and authentication calls are network I/O. Their answers are parameters. This also covers the `supabaseClient` that `src/api/apiRecommendations.js` uses without importing it.
- The asynchronous interleaving of the handlers is not modelled: each handler runs to completion atomically. The upload handlers update the lists captured before their `await`. Edits made while an upload is in flight are therefore not modelled.
- Loading the profile on mount (`initializeProfile`) and the form fields are not modelled. The form fields depend on a validation library this model cannot see.
- The record that `saveProfile` sends (the form data merged with the lists) is not modelled, and neither is its ISO timestamp. `ProfilePage.ProfileEditor.SaveProfile` models only the state change and the messages.
- The three-second message reset (`setTimeout`), the "uploading"/"saving" spinner flags, the active tab and all JSX markup are not modelled.
- `Text.Lower` only lower-cases ASCII letters. Full Unicode case mapping is not modelled.
- Strings are sequences of code points, not UTF-16 code units. `ApiProfile.Sanitize` therefore replaces a character outside the Basic Multilingual Plane with one `-`, where the source writes two.
- `toLocaleDateString` is locale-dependent. It is the opaque parameter `localeDate` of `JobCard.PostedLabel`.
- Record ids are compared structurally. This agrees with `===` for the numbers `Date.now()` produces, but not for object ids.
- `ProfilePage.TextOr` treats a truthy field that is not a string like a missing one. The source would pass such a value on. For the certificate name and the portfolio title, sanitising would then throw (src/api/apiProfile.js:179, 211). The company name is not sanitised (src/api/apiProfile.js:152), so it would appear in the logo's file name as JavaScript renders it, where the model uses "company". The inputs only ever store strings there.
- `ProfilePage.ShowTechnologies` takes a list. A missing `technologies` field, which the source displays as the empty string, is not modelled.
- `JobCard.DescriptionPreview` takes the description as a string or missing. A description column of another type is not modelled.
- `ApiRecommendations.JobScore` states only bounds and zero cases in its own contract. Its value is pinned down by the lemmas about it: `AppendSkillScore`, `ScoreIgnoresSkillOrder`, `ScoreIgnoresCase` and the examples.
- Numbers in records are integers. Fractional ids or values are not modelled.
