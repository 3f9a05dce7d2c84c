# MyDash backend core in Dafny

A model of the core logic of the MyDash backend, with proofs about that model. The core has four parts:

- The **cash-flow datasets** (`dataSet.controllers.js` and `dataset-models.js`):
  - validate and normalise the movements of a new dataset or an appended batch (kind, date string, amount, category, note);
  - compute the period a dataset spans and its totals;
  - hold the Mongoose hooks that make amounts non-negative and fill in totals and the period before saving;
  - choose the model for each dataset type.
- The **scholarship matcher** (`scholarshipMatch.js`) decides whether an applicant meets a scholarship's requirements. It checks:
  - maximum age;
  - nationality against the list of applicant countries, or the "todos" wildcard;
  - academic level, taken as the highest completed degree;
  - required languages, on the A1–C2 scale.

  When the profile lacks what those checks need, it returns the "load your profile" label.
- The **parameters lists** (`parametros.controllers.js`) maintain the singleton document's lists of languages and countries: add one, add several, rename and delete.
- The **bearer-token middleware** (`auth-middleware.js`) guards the protected routes.

Modules:

- `Wrappers`: Option and Result.
- `JsStrings`: `trim`, case folding, `split`, and the code-unit order behind `localeCompare` on digit keys.
- `JsArrays`: `some`, `every`, `filter`, `map`, `indexOf`, the position a stable sort puts first or last, and convert-all-or-fail.
- `DateStrings`: `isFechaString` and `toSortableKeyYY`.
- `DatasetModels`: the model file's hooks, validator and type table.
- `DatasetController`: normalisation, period, totals, `createDataset`, `addMovementsToDataset` and `getDisplayName`.
- `ScholarshipMatch`.
- `ParametrosController`.
- `AuthMiddleware`.

The code is modelled in the form it is written in:

- Pure helpers become functions with lemmas.
- The loops of the controllers become methods with loop invariants, proved equal to a specification function:
  - `NormalizeMovements`;
  - `Totals`;
  - the totals loop inside `PreSave`.
- Documents that handlers change in place become classes whose methods modify their fields:
  - `Parametros`;
  - `StoredDataset`;
  - `MovementDoc`;
  - `DatasetDoc`.

Values outside the program are parameters:

- the database's answers (does the name already exist? is the parameters document present?);
- the current date;
- the configured token.

## Model

| member | source | states |
|---|---|---|
| JsStrings.TrimStart | src/controllers/dataSet.controllers.js:18 | the leading-whitespace strip yields a suffix whose dropped prefix is all whitespace and which does not start with whitespace |
| JsStrings.TrimEnd | src/controllers/dataSet.controllers.js:18 | the trailing-whitespace strip yields a prefix whose dropped suffix is all whitespace and which does not end with whitespace |
| JsStrings.Trim | src/controllers/dataSet.controllers.js:18 | `trim` yields a string with no whitespace at either end, never longer than the input |
| JsStrings.TrimIsUnpadding | src/controllers/dataSet.controllers.js:18 | the trimmed string is a contiguous slice of the input with only whitespace before and after it |
| JsStrings.TrimOfTrimmed | src/controllers/dataSet.controllers.js:18 | a string without surrounding whitespace is left unchanged by `trim` |
| JsStrings.TrimIdempotent | src/controllers/dataSet.controllers.js:18 | trimming twice equals trimming once |
| JsStrings.TrimPadded | src/controllers/dataSet.controllers.js:17-19 | whitespace padding around a non-empty trimmed string is exactly what `trim` removes |
| JsStrings.CaseFolding | src/utils/scholarshipMatch.js:106-107 | lower-casing changes only upper-case letters, leaves none, and upper-casing undoes it (and symmetrically for upper-casing) |
| JsStrings.ToLower | src/utils/scholarshipMatch.js:141 | `toLowerCase` keeps the length and folds every character on its own |
| JsStrings.ToUpper | src/utils/scholarshipMatch.js:106-107 | `toUpperCase` keeps the length and folds every character on its own |
| JsStrings.ToLowerOfLower | src/utils/scholarshipMatch.js:155 | a string with no upper-case letter is its own lower-case form |
| JsStrings.ToLowerIdempotent | src/utils/scholarshipMatch.js:155-164 | lower-casing twice equals lower-casing once |
| JsStrings.ToUpperIdempotent | src/utils/scholarshipMatch.js:106-107 | upper-casing twice equals upper-casing once |
| JsStrings.ToLowerEmpty | src/utils/scholarshipMatch.js:141-146 | lower-casing maps the empty string, and only it, to the empty string, so a falsy nationality stays falsy |
| JsStrings.Utf16Length | src/controllers/dataSet.controllers.js:68 | a string's `length` counts one code unit per character of the Basic Multilingual Plane and two for any other, so it lies between the number of characters and twice that, and equals the number of characters exactly when no character needs a surrogate pair |
| JsStrings.Utf16LengthOfAstral | src/controllers/dataSet.controllers.js:68 | a single character outside the Basic Multilingual Plane has length 2 |
| JsStrings.IndexOfChar | src/controllers/dataSet.controllers.js:39 | the first position of a character, or -1 exactly when it is absent |
| JsStrings.Split | src/controllers/dataSet.controllers.js:39 | `split` on one character gives at least one piece, none containing the separator |
| JsStrings.JoinSplit | src/controllers/dataSet.controllers.js:39-44 | joining the pieces of a split with the separator gives back the original string |
| JsStrings.SplitNoSeparator | src/controllers/dataSet.controllers.js:39 | a string without the separator splits into itself alone |
| JsStrings.SplitFirstTwo | src/services/auth-middleware.js:9 | a string with two or more pieces is piece 0, the separator, piece 1 and a remainder that is empty or starts with the separator |
| JsStrings.SplitOfFirstTwo | src/services/auth-middleware.js:9 | conversely, such a string has those two texts as its first two pieces |
| JsStrings.SplitLeadingPiece | src/services/auth-middleware.js:9 | a separator-free text followed by nothing or by a separator is the first piece |
| JsStrings.SplitFirst | src/controllers/dataSet.controllers.js:39-43 | `[grupo, ...rest]` then `rest.join(":")` gives the text before the first separator and the text after it (the whole string and nothing when the separator is absent) |
| JsStrings.SplitAroundSeparator | src/controllers/dataSet.controllers.js:39 | with a separator-free head, the first separator is right after it, piece 0 is the head and the other pieces are the split of the tail |
| JsStrings.LexLessIrreflexive | src/controllers/dataSet.controllers.js:157 | no string orders before itself |
| JsStrings.LexLessTransitive | src/controllers/dataSet.controllers.js:157 | the string order is transitive |
| JsStrings.LexLessTotal | src/controllers/dataSet.controllers.js:157 | any two different strings are ordered one way or the other |
| JsStrings.LexLessAsymmetric | src/controllers/dataSet.controllers.js:157 | the string order is asymmetric |
| JsStrings.LexLessNotBoth | src/controllers/dataSet.controllers.js:157 | when one string orders before another, the other does not order before it and the two differ |
| JsStrings.LexLessConcat | src/controllers/dataSet.controllers.js:23-31 | concatenations whose first parts have equal length compare by the first parts, then by the second |
| JsStrings.DigitsValue | src/controllers/dataSet.controllers.js:23-31 | the number a digit string denotes is below 10 to the power of its length |
| JsStrings.DigitsOrder | src/controllers/dataSet.controllers.js:157 | for equal-length digit strings, string order is number order and string equality is number equality |
| JsArrays.Any | src/utils/scholarshipMatch.js:38 | `some` is true exactly when some element passes |
| JsArrays.All | src/utils/scholarshipMatch.js:210 | `every` is true exactly when every element passes |
| JsArrays.Filter | src/controllers/parametros.controllers.js:61-63 | `filter` keeps only passing elements and never lengthens |
| JsArrays.FilterConcat | src/controllers/parametros.controllers.js:123-125 | filtering a concatenation filters each part, so relative order is kept |
| JsArrays.FilterAllPass | src/controllers/parametros.controllers.js:123-125 | filtering with a test every element passes changes nothing |
| JsArrays.FilterCount | src/controllers/parametros.controllers.js:123-125 | every occurrence of a passing value is kept and none of a failing one |
| JsArrays.FilterShrinks | src/controllers/parametros.controllers.js:119-125 | when a present element fails the test, the result is strictly shorter |
| JsArrays.FilterMembership | src/controllers/parametros.controllers.js:61-63 | a value is in the result exactly when it is in the input and passes |
| JsArrays.Map | src/utils/scholarshipMatch.js:155 | `map` keeps the length and applies the callback at every position |
| JsArrays.MapMembership | src/utils/scholarshipMatch.js:164 | a value is in the mapped list exactly when it is the image of some element |
| JsArrays.MapMembershipEither | src/utils/scholarshipMatch.js:155-166 | one of two values is in the mapped list exactly when some element maps to one of them |
| JsArrays.IndexOf | src/utils/scholarshipMatch.js:106-107 | `indexOf` is the first position holding the value, or -1 exactly when it is absent |
| JsArrays.FirstBy | src/controllers/dataSet.controllers.js:155-160 | the element a stable sort puts first: nothing is less than it and it is less than every earlier element |
| JsArrays.LastBy | src/controllers/dataSet.controllers.js:155-160 | the element a stable sort puts last: it is less than nothing and every later element is less than it |
| JsArrays.TryMap | src/controllers/dataSet.controllers.js:110-152 | a successful conversion of all elements has one result per input |
| JsArrays.TryMapMeaning | src/controllers/dataSet.controllers.js:110-152 | succeeds exactly when every element converts, with each result in place; otherwise reports the first failing position and its error |
| JsArrays.TryMapPrefixFailure | src/controllers/dataSet.controllers.js:110-152 | a failure within a prefix is the failure of the whole list |
| JsArrays.ConvertAll | src/controllers/dataSet.controllers.js:110-152 | the loop that returns at the first bad element computes `TryMap` |
| DateStrings.FechaShapeParts | src/controllers/dataSet.controllers.js:16-20 | the date pattern matches exactly the strings made of 2-digit day, 2-digit month and 2- or 4-digit year joined by "/" |
| DateStrings.FechaSplit | src/controllers/dataSet.controllers.js:16-20 | a string of the date shape is its own parts joined by slashes |
| DateStrings.FechaOfParts | src/controllers/dataSet.controllers.js:16-20 | valid parts joined by slashes match the pattern and can be read back at fixed positions |
| DateStrings.FechaIsTrimmed | src/controllers/dataSet.controllers.js:124 | a date string has no surrounding whitespace, so trimming it keeps it |
| DateStrings.FechaShapeIsTrimmed | src/controllers/dataSet.controllers.js:124 | a string of the date shape is unchanged by `trim` |
| DateStrings.IsFechaStringParts | src/controllers/dataSet.controllers.js:16-20 | `isFechaString` holds exactly for a present value that trims to valid parts joined by slashes |
| DateStrings.IsFechaStringIgnoresPadding | src/controllers/dataSet.controllers.js:16-20 | whitespace around a valid date does not stop `isFechaString` |
| DateStrings.IsFechaString | src/controllers/dataSet.controllers.js:16-20 | a value that passes is present and trims to 8 or 10 characters |
| DateStrings.ToSortableKey | src/controllers/dataSet.controllers.js:23-31 | a date's key is all digits and two characters shorter than the trimmed date; any other text comes back trimmed |
| DateStrings.SortKeyOfParts | src/controllers/dataSet.controllers.js:23-31 | the key of a date is year, month, day |
| DateStrings.KeyOrderIsChronological | src/controllers/dataSet.controllers.js:155-160 | for years of the same width, key order is year, then month, then day |
| DateStrings.KeyPartsOrder | src/controllers/dataSet.controllers.js:155-160 | keys built of equal-length parts compare part by part |
| DateStrings.SameKeySameFecha | src/controllers/dataSet.controllers.js:23-31 | equal keys for same-width years mean the same trimmed date |
| DateStrings.MixedYearWidthsMisorder | src/controllers/dataSet.controllers.js:23-31 | a 4-digit year whose first digit is the smaller sorts before a 2-digit year whatever the years denote |
| DatasetController.UnclassifiedIsTrimmed | src/controllers/dataSet.controllers.js:42 | the default group "SinClasificar" survives the trim the code applies to it |
| DatasetController.NormalizeCategoria | src/controllers/dataSet.controllers.js:36-49 | the normalised group and subgroup carry no surrounding whitespace, and an object category never keeps an empty subgroup; `NormalizeFalsyCategoria`, `NormalizeTextCategoria` and `NormalizeRecordCategoria` give the result case by case |
| DatasetController.NormalizeFalsyCategoria | src/controllers/dataSet.controllers.js:37 | a falsy category becomes "SinClasificar" without a subgroup |
| DatasetController.NormalizeTextCategoria | src/controllers/dataSet.controllers.js:38-45 | a string category splits at its first ":" into a trimmed group (or the default) and a trimmed subgroup (null when nothing follows) |
| DatasetController.NormalizeRecordCategoria | src/controllers/dataSet.controllers.js:46-48 | an object category keeps its trimmed group (default when falsy) and its trimmed subgroup, null when falsy |
| DatasetController.NormalizeRecordIsNormal | src/controllers/dataSet.controllers.js:46-48 | an object with a non-blank group normalises into the normal form |
| DatasetController.NormalizeStoredCategoria | src/controllers/dataSet.controllers.js:46-48 | normalising a stored category gives it back unchanged |
| DatasetController.NormalizeTextRoundTrip | src/controllers/dataSet.controllers.js:38-45 | "group:subgroup" built from trimmed parts normalises back to those parts |
| DatasetController.NormalizeTextWithoutSeparator | src/controllers/dataSet.controllers.js:38-45 | a string without ":" is all group, trimmed, with no subgroup |
| DatasetController.BlankSubgroupPaths | src/controllers/dataSet.controllers.js:36-49 | a blank subgroup is dropped on the object path but kept as "" on the string path |
| DatasetController.BlankTrimsToEmpty | src/controllers/dataSet.controllers.js:43 | all-whitespace text trims to "" |
| DatasetController.GetDisplayName | src/controllers/dataSet.controllers.js:365-376 | an unknown type gets "Otros" |
| DatasetController.GetDisplayNameOfType | src/controllers/dataSet.controllers.js:365-376 | a known type gets its listed name |
| DatasetController.DisplayNameInjective | src/controllers/dataSet.controllers.js:365-376 | different types have different display names |
| DatasetController.NormalizeMovementChecks | src/controllers/dataSet.controllers.js:110-131 | a movement is accepted exactly when its tipo, fecha and monto are valid; otherwise the first failing check, in that order, is the reason |
| DatasetController.NormalizedMovementFields | src/controllers/dataSet.controllers.js:133-151 | an accepted movement stores its trimmed tipo, its trimmed date, its amount, the normalised category, the trimmed note when it is not blank and none otherwise, the source ("csv" by default) and the external id when it is non-empty and none otherwise |
| DatasetController.NormalizedNota | src/controllers/dataSet.controllers.js:135-138 | an accepted movement's note is the trimmed note when that is not empty, and then it is non-empty and trimmed; none otherwise |
| DatasetController.NormalizeMovement | src/controllers/dataSet.controllers.js:110-151 | an accepted movement is an income or an expense with an amount above zero |
| DatasetController.NormalizedIsNormal | src/controllers/dataSet.controllers.js:133-151 | a normalised movement with a normal category is in normal form |
| DatasetController.RenormalizeMovement | src/controllers/dataSet.controllers.js:110-152 | a stored movement in normal form, read back as input, is accepted and reproduced unchanged |
| DatasetController.KindIsTrimmed | src/controllers/dataSet.controllers.js:111-116 | "ingreso" and "egreso" are unchanged by `trim` |
| DatasetController.NotaRoundTrip | src/controllers/dataSet.controllers.js:135-138 | a kept note, written back as text, is kept unchanged, and an absent one stays absent |
| DatasetController.NormalizeBatch | src/controllers/dataSet.controllers.js:108-152 | an accepted batch has one movement per input |
| DatasetController.NormalizeBatchMeaning | src/controllers/dataSet.controllers.js:108-152 | either every movement is valid and the batch holds each normalised one in order, or the rejection names the first invalid movement (1-based) and its reason |
| DatasetController.BatchFechasNonEmpty | src/controllers/dataSet.controllers.js:155-160 | every date of an accepted batch is non-empty |
| DatasetController.NormalizedFechaNonEmpty | src/controllers/dataSet.controllers.js:118-124 | an accepted movement's date is non-empty |
| DatasetController.NormalizeMovements | src/controllers/dataSet.controllers.js:108-152 | the normalisation loop computes `NormalizeBatch` |
| DatasetController.KeyLess | src/controllers/dataSet.controllers.js:157 | when one date orders before another by sortable key, the other does not order before it and their keys differ |
| DatasetController.KeyLessIsStrictWeakOrder | src/controllers/dataSet.controllers.js:157 | the comparator of the period sort is a strict weak order |
| DatasetController.PeriodStart | src/controllers/dataSet.controllers.js:155-160 | the period start is a non-empty date of the list, absent for an empty list |
| DatasetController.PeriodEnd | src/controllers/dataSet.controllers.js:155-160 | the period end is a non-empty date of the list, absent for an empty list |
| DatasetController.PeriodBounds | src/controllers/dataSet.controllers.js:155-160 | for a non-empty list, no date sorts before the start and none after the end |
| DatasetController.Fechas | src/controllers/dataSet.controllers.js:156 | the date of each movement, in order |
| DatasetController.TotalsPartition | src/controllers/dataSet.controllers.js:163-168 | income and expenses add up to the sum of all amounts |
| DatasetController.TotalsNonNegative | src/controllers/dataSet.controllers.js:163-168 | with positive amounts both totals are non-negative, and each is positive when some movement of its kind exists |
| DatasetController.Totals | src/controllers/dataSet.controllers.js:163-168 | the totals loop computes the income and expense sums, which partition the total |
| DatasetController.CreateDataset | src/controllers/dataSet.controllers.js:66-198 | the failures in the source's order (trimmed name shorter than 2 UTF-16 code units, no movements, bad currency, bad type, a rejected movement, a taken name) with their conditions; a created dataset has the trimmed name, the currency or "ARS", the type or "other", the normalised movements and the period of their dates |
| DatasetController.PresentFechas | src/controllers/dataSet.controllers.js:451-452 | only non-empty dates are kept |
| DatasetController.StoredDataset.constructor | src/controllers/dataSet.controllers.js:393-399 | the dataset holds the given type, movements and period |
| DatasetController.StoredDataset.AddMovements | src/controllers/dataSet.controllers.js:378-474 | a missing id, an empty batch and a rejected movement each fail, exactly under their conditions, and leave the dataset unchanged; success appends the normalised batch and recomputes the period over all present dates, reporting how many were added and the new total |
| DatasetController.AppendedPeriodCovers | src/controllers/dataSet.controllers.js:448-456 | after an append the recomputed period brackets every dated movement |
| DatasetModels.NonNegativeMonto | src/models/dataset-models.js:27-32 | the hook makes a present amount its absolute value, keeps a non-negative one and leaves an absent one absent |
| DatasetModels.MovementDoc.constructor | src/models/dataset-models.js:7-24 | a movement document holds the given fields |
| DatasetModels.MovementDoc.PreValidate | src/models/dataset-models.js:27-32 | the pre-validate hook replaces the amount by `NonNegativeMonto` of the old one |
| DatasetModels.TotalsConcat | src/models/dataset-models.js:94-102 | the income and expense totals are additive over concatenation |
| DatasetModels.TotalsAreFilteredSums | src/models/dataset-models.js:94-102 | the totals are the amount sums of the "ingreso" and "egreso" movements |
| DatasetModels.ValidatedTotalsNonNegative | src/models/dataset-models.js:27-32 | after the pre-validate hook has run on every movement both totals are non-negative |
| DatasetModels.EarliestFecha | src/models/dataset-models.js:105-114 | absent exactly when no movement has a date; otherwise a movement's date no later than any other |
| DatasetModels.LatestFecha | src/models/dataset-models.js:105-114 | absent exactly when no movement has a date; otherwise a movement's date no earlier than any other |
| DatasetModels.EarliestNotAfterLatest | src/models/dataset-models.js:105-114 | the earliest date is never after the latest |
| DatasetModels.DatasetDoc.constructor | src/models/dataset-models.js:38-77 | a dataset document holds the given movements, totals and period |
| DatasetModels.DatasetDoc.PreSave | src/models/dataset-models.js:89-116 | the movements are unchanged; the totals are the income sum, the expense sum and their difference (zeros without movements); an unset period start or end is filled from the earliest or latest dated movement, and a set one is kept |
| DatasetModels.FilledPeriodBrackets | src/models/dataset-models.js:105-114 | a filled period brackets every dated movement |
| DatasetModels.AcceptsUpToLimit | src/models/dataset-models.js:64-69 | a list of exactly 50000 entries is accepted and one more entry makes it rejected; a missing list is rejected |
| DatasetModels.AcceptsAppend | src/models/dataset-models.js:64-69 | appending to an accepted list is accepted exactly when the combined length stays within 50000, and an accepted concatenation has accepted parts |
| DatasetModels.ParseDatasetType | src/controllers/dataSet.controllers.js:85-102 | a recognised type string is that type's key |
| DatasetModels.ParseTypeKey | src/controllers/dataSet.controllers.js:85-102 | every type's key is recognised as that type |
| DatasetModels.GetDatasetModel | src/models/dataset-models.js:139-141 | an unknown type gets the "other" model |
| DatasetModels.GetDatasetModelOfType | src/models/dataset-models.js:128-141 | a known type gets its own model |
| DatasetModels.GetDatasetModelOther | src/models/dataset-models.js:128-141 | the "other" model is what "other" and every unknown string get, and nothing else |
| DatasetModels.ModelOfBijective | src/models/dataset-models.js:128-136 | the type-to-model table is one-to-one and onto |
| DatasetModels.AllDatasetModels | src/models/dataset-models.js:144-146 | the list of models holds every table entry, each once |
| ScholarshipMatch.AgeIsCompletedYears | src/utils/scholarshipMatch.js:2-18 | the age is the number of birthdays that have passed by today: that anniversary has been reached and the next has not |
| ScholarshipMatch.AgeIsUnique | src/utils/scholarshipMatch.js:2-18 | no other number has that property |
| ScholarshipMatch.Age | src/utils/scholarshipMatch.js:2-18 | no birth date gives 0; otherwise the anniversary of that age has been reached by today and the next one has not |
| ScholarshipMatch.AgeAboveFloor | src/utils/scholarshipMatch.js:124-138 | an integer age is above a number exactly when it is above that number rounded down, so storing the maximum rounded down does not change the criterion |
| ScholarshipMatch.MeetsMaxAge | src/utils/scholarshipMatch.js:124-138 | fails only when a maximum is set and the age (0 without a birth date) is above it; with a birth date it fails exactly when the birthday one past the maximum has been reached by today |
| ScholarshipMatch.MeetsNationality | src/utils/scholarshipMatch.js:140-177 | a missing nationality fails; an empty country list passes; otherwise passes exactly when the lower-cased list holds "todos" or the lower-cased nationality |
| ScholarshipMatch.ListedUpToCase | src/utils/scholarshipMatch.js:155-166 | membership in the lower-cased list means some entry is "todos" or the nationality up to case |
| ScholarshipMatch.WildcardAdmitsAll | src/utils/scholarshipMatch.js:157-159 | a "todos" entry, in any case, admits every applicant with a nationality |
| ScholarshipMatch.NoCountryListAdmitsAll | src/utils/scholarshipMatch.js:148-153 | without a country list only a nationality is needed |
| ScholarshipMatch.NationalityIgnoresCase | src/utils/scholarshipMatch.js:141-166 | nationalities equal up to case are treated alike |
| ScholarshipMatch.AcademicRank | src/utils/scholarshipMatch.js:67-74 | the rank of a level is its position on the scale, absent exactly for levels off the scale |
| ScholarshipMatch.AcademicRankOfScale | src/utils/scholarshipMatch.js:67-74 | every scale entry has its own position as its rank |
| ScholarshipMatch.KeepHighest | src/utils/scholarshipMatch.js:92-97 | the reduction yields the start value or one of the degrees |
| ScholarshipMatch.KeepHighestUnranked | src/utils/scholarshipMatch.js:92-97 | an unranked start value is never replaced |
| ScholarshipMatch.KeepHighestRanked | src/utils/scholarshipMatch.js:92-97 | a ranked start value ends as a ranked degree at least as high as it and as every ranked degree |
| ScholarshipMatch.HighestCompletedDegree | src/utils/scholarshipMatch.js:66-101 | null exactly when there is no academic data or no entry is completed; otherwise the degree of a completed entry |
| ScholarshipMatch.HighestIsCompleted | src/utils/scholarshipMatch.js:83-97 | with completed entries the result is the degree of one of them |
| ScholarshipMatch.NoneCompleted | src/utils/scholarshipMatch.js:83-90 | an empty completed list means no entry is completed |
| ScholarshipMatch.CompletedStaysCompleted | src/utils/scholarshipMatch.js:83-85 | an entry completed by one year is one with an end year and stays completed later; an entry ending in the current year is not yet completed |
| ScholarshipMatch.HighestIsMaximum | src/utils/scholarshipMatch.js:83-97 | when the first completed degree is ranked, the result ranks at least as high as every ranked completed degree |
| ScholarshipMatch.HighestIsFirstWhenUnranked | src/utils/scholarshipMatch.js:83-97 | when the first completed degree is unranked, it is the result |
| ScholarshipMatch.ApplicantLevel | src/utils/scholarshipMatch.js:179-190 | the level used is the highest completed degree when that is a non-empty string, and "Secundario" when it is null or empty |
| ScholarshipMatch.MeetsAcademicLevel | src/utils/scholarshipMatch.js:179-205 | passes without a minimum; otherwise fails exactly when both levels are ranked and the applicant's ranks below |
| ScholarshipMatch.LevelSufficesOnScale | src/utils/scholarshipMatch.js:195-203 | a level fails a minimum exactly when both are scale entries in the wrong order |
| ScholarshipMatch.UnrankedNeverFails | src/utils/scholarshipMatch.js:195-203 | a level off the scale, on either side, never fails |
| ScholarshipMatch.RankedLevelSuffices | src/utils/scholarshipMatch.js:195-203 | on the scale the level suffices exactly when its position is at least the minimum's |
| ScholarshipMatch.LevelMonotone | src/utils/scholarshipMatch.js:195-203 | a higher-ranked level meets every minimum a lower one meets |
| ScholarshipMatch.UnrankedFirstIsKept | src/utils/scholarshipMatch.js:92-97 | "Terciario" followed by "Grado" yields "Terciario": the reduction depends on order |
| ScholarshipMatch.TerciarioIsUnranked | src/utils/scholarshipMatch.js:67-74 | "Terciario" has no rank |
| ScholarshipMatch.RankedFirstIsKept | src/utils/scholarshipMatch.js:92-97 | the same two entries in the other order yield "Grado" |
| ScholarshipMatch.MeetsLanguageLevel | src/utils/scholarshipMatch.js:104-121 | passes exactly when both upper-cased levels are on the A1–C2 scale and the applicant's is at least the required one |
| ScholarshipMatch.LanguageLevelsDistinct | src/utils/scholarshipMatch.js:105 | the scale entries are distinct |
| ScholarshipMatch.LanguageLevelIgnoresCase | src/utils/scholarshipMatch.js:106-107 | upper-casing either level first changes nothing |
| ScholarshipMatch.LanguageLevelMonotone | src/utils/scholarshipMatch.js:104-121 | a level meeting a requirement meets every lower requirement, and every higher level meets it too |
| ScholarshipMatch.ToUpperOfLevel | src/utils/scholarshipMatch.js:105-107 | the scale entries are their own upper-case form |
| ScholarshipMatch.UnknownLanguageLevelFails | src/utils/scholarshipMatch.js:109-112 | a level off the scale, on either side, fails |
| ScholarshipMatch.StopsWithCons | src/utils/scholarshipMatch.js:211-219 | `some` over the callback's outcomes stops with a given outcome exactly when the first call has it, or the first call answers false and the rest stops with it |
| ScholarshipMatch.StopsWithoutThrows | src/utils/scholarshipMatch.js:211-219 | with no throwing call, `some` never throws, and it stops with a match exactly when some call matches |
| ScholarshipMatch.FindLanguage | src/utils/scholarshipMatch.js:211-219 | the inner `some` is met exactly when it reaches a matching applicant entry, after only entries compared without a match, and throws exactly when it reaches an entry whose comparison reads a missing field of the applicant's or the required entry |
| ScholarshipMatch.CompleteEntriesCompare | src/utils/scholarshipMatch.js:211-219 | when every applicant entry has a name and a level: it throws exactly when there are entries and the required entry lacks a field, and it is met exactly when the required entry is complete and some applicant entry has its name up to case with a sufficient level |
| ScholarshipMatch.MeetsLanguagesFrom | src/utils/scholarshipMatch.js:207-228 | true exactly with no requirements or when the applicant has languages meeting every required entry; it throws exactly when there are requirements and either the applicant has no language list or the inner `some` throws on some required entry after every entry before it is met |
| ScholarshipMatch.RaisingShifts | src/utils/scholarshipMatch.js:210-222 | a satisfied first requirement does not change whether, or whether not, the rest throws or is satisfied |
| ScholarshipMatch.SatisfiedShifts | src/utils/scholarshipMatch.js:210-222 | with the first requirement satisfied, all rest being satisfied means all being satisfied |
| ScholarshipMatch.RaisesLater | src/utils/scholarshipMatch.js:210-222 | a throw in the rest is a throw of the whole list one place later |
| ScholarshipMatch.RaisesEarlier | src/utils/scholarshipMatch.js:210-222 | a throw of the whole list past a satisfied first entry is a throw in the rest |
| ScholarshipMatch.MeetsLanguages | src/utils/scholarshipMatch.js:207-228 | the language criterion passes exactly when the scholarship requires no language or the applicant has languages meeting every required entry; it throws exactly when languages are required and the applicant has no list, or when, after met entries, a comparison reads a field missing from an applicant entry or a required one |
| ScholarshipMatch.MissingApplicantFieldRaises | src/utils/scholarshipMatch.js:211-216 | an applicant entry without its name or level throws when the inner `some` reaches it, here as the first entry |
| ScholarshipMatch.IllFormedOfRaise | src/utils/scholarshipMatch.js:210-221 | when every applicant entry has a name and a level, a throw comes from a required entry without `idioma` or `nivelIdioma` |
| ScholarshipMatch.HasCompleteInformation | src/utils/scholarshipMatch.js:21-63 | complete exactly when birth date, nationality, a non-empty academic list and every degree are present, and, when languages are required, a non-empty language list whose entries all have a non-empty name and level |
| ScholarshipMatch.Evaluate | src/utils/scholarshipMatch.js:231-261 | the label exactly for an incomplete profile; a throw exactly when languages are required, the profile is complete and the language check throws on some required entry after met ones, which needs a required entry without a field; eligible exactly when complete and all four criteria pass |
| ScholarshipMatch.MissingBasicsGiveLabel | src/utils/scholarshipMatch.js:21-40 | missing basic data gives the label |
| ScholarshipMatch.LanguagesIgnoredWhenNotRequired | src/utils/scholarshipMatch.js:43-63 | language data does not matter when none is required |
| ScholarshipMatch.IncompleteLanguagesGiveLabel | src/utils/scholarshipMatch.js:43-58 | with languages required, an empty list or an entry without name or level gives the label |
| ScholarshipMatch.WellFormedRequirementsDoNotRaise | src/utils/scholarshipMatch.js:207-228 | required entries that all have both fields never throw |
| ScholarshipMatch.RaisesOnlyOnIllFormedEntry | src/utils/scholarshipMatch.js:207-261 | a throw needs a complete profile and an ill-formed required entry reached by `every` |
| ScholarshipMatch.IllFormedEntryRaises | src/utils/scholarshipMatch.js:207-261 | a complete profile throws when a required entry without a field is reached after met entries |
| ScholarshipMatch.EligibleMonotoneInLevel | src/utils/scholarshipMatch.js:179-261 | replacing the academic data by a higher-ranked set of degrees keeps an eligible applicant eligible |
| ScholarshipMatch.AcademicLevelMonotone | src/utils/scholarshipMatch.js:179-205 | an applicant ranking at least as high as one who passes also passes |
| ParametrosController.AddName | src/controllers/parametros.controllers.js:18-46 | succeeds exactly for a non-empty name not yet listed, appending it at the end behind the unchanged list; otherwise the error says which condition failed |
| ParametrosController.AddNameMeaning | src/controllers/parametros.controllers.js:18-46 | after an add the name is listed together with exactly the old names, and a list without repeats keeps none |
| ParametrosController.AddNames | src/controllers/parametros.controllers.js:48-76 | fails exactly for a missing or empty input list; otherwise appends the inputs not already listed, in input order |
| ParametrosController.AddNamesMeaning | src/controllers/parametros.controllers.js:48-76 | after a bulk add every input is listed, every old name is kept, and nothing else appears |
| ParametrosController.AddNamesToEmpty | src/controllers/parametros.controllers.js:56-58 | creating the document stores the input list as given |
| ParametrosController.AddNamesKeepsInputRepeats | src/controllers/parametros.controllers.js:61-64 | a new name given twice in one request is stored twice, so the list gets a repeat |
| ParametrosController.ReplaceName | src/controllers/parametros.controllers.js:78-107 | fails exactly when either name is empty or the old name is not listed; otherwise every occurrence of the old name becomes the new one |
| ParametrosController.ReplaceNameMeaning | src/controllers/parametros.controllers.js:94-96 | a rename keeps the length and the other positions, lists the new name, and drops the old one when the names differ |
| ParametrosController.RemoveName | src/controllers/parametros.controllers.js:109-136 | fails exactly for an empty name or one not listed; otherwise removes every occurrence, so the list shrinks |
| ParametrosController.RemoveNameMeaning | src/controllers/parametros.controllers.js:123-125 | after a delete the name is gone and every other name keeps its count and relative order |
| ParametrosController.RemoveKeepsDistinct | src/controllers/parametros.controllers.js:123-125 | a list without repeats keeps none after a delete |
| ParametrosController.Parametros.Absent | src/controllers/parametros.controllers.js:26-29 | the state before the parameters document exists: not present, both lists empty |
| ParametrosController.Parametros.Stored | src/controllers/parametros.controllers.js:26-35 | a present document with the given lists |
| ParametrosController.Parametros.AddIdioma | src/controllers/parametros.controllers.js:18-46 | the languages list becomes what `AddName` gives, with status 201, the document created when absent; on an error, status 400 and nothing changes; the countries are untouched |
| ParametrosController.Parametros.AddMultiplesIdiomas | src/controllers/parametros.controllers.js:48-76 | the languages list becomes what `AddNames` gives, with 201; on an error, 400 and nothing changes; the countries are untouched |
| ParametrosController.Parametros.UpdateIdioma | src/controllers/parametros.controllers.js:78-107 | the languages list becomes what `ReplaceName` gives, with 200; otherwise 400 or 404 and nothing changes |
| ParametrosController.Parametros.DeleteIdioma | src/controllers/parametros.controllers.js:109-136 | the languages list becomes what `RemoveName` gives, with 200; otherwise 400 or 404 and nothing changes |
| ParametrosController.Parametros.AddPais | src/controllers/parametros.controllers.js:138-166 | the countries analogue of `AddIdioma`; the languages are untouched |
| ParametrosController.Parametros.AddMultiplesPaises | src/controllers/parametros.controllers.js:168-196 | the countries analogue of `AddMultiplesIdiomas` |
| ParametrosController.Parametros.UpdatePais | src/controllers/parametros.controllers.js:198-227 | the countries analogue of `UpdateIdioma` |
| ParametrosController.Parametros.DeletePais | src/controllers/parametros.controllers.js:229-254 | the countries analogue of `DeleteIdioma` |
| AuthMiddleware.Authorize | src/services/auth-middleware.js:2-19 | 401 exactly for a missing or empty header; 401 exactly when the first piece is not "Bearer" or the second is missing; 403 only for a token other than the configured one; `next()` only for the configured, non-empty token |
| AuthMiddleware.PassIff | src/services/auth-middleware.js:2-19 | `next()` is reached exactly for "Bearer", one space and the configured token, optionally followed by a space and anything, when that token is set, non-empty and has no space |
| AuthMiddleware.BearerHeaderParts | src/services/auth-middleware.js:9 | such a header splits into "Bearer" and the token |
| AuthMiddleware.BearerHeaderOfParts | src/services/auth-middleware.js:9 | a header whose first two pieces are "Bearer" and a token has that header form |
| AuthMiddleware.ExtraPiecesIgnored | src/services/auth-middleware.js:9-16 | whatever follows the token after another space does not change the decision |
| AuthMiddleware.DoubleSpaceIsMalformed | src/services/auth-middleware.js:9-12 | two spaces after "Bearer" leave an empty token and give 401 |
| AuthMiddleware.SchemeIsCaseSensitive | src/services/auth-middleware.js:9-12 | "bearer" in lower case gives 401 |
| AuthMiddleware.UnsetTokenRefusesAll | src/services/auth-middleware.js:14-16 | with no configured token, no header reaches `next()` |

## Left out

- HTTP and persistence:
  - HTTP requests, responses and the Express plumbing are not modelled; a handler's outcome is a status code or a result value.
  - Database lookups are parameters (`nameTaken`, the document found by id, the parameters document's presence). Saving is a field update.
  - The 404 for an unknown dataset id, the 500 responses of the `catch` blocks and the 11000 duplicate-key handling are not modelled.
  - Logging is not modelled.
  - The read handlers (`getDatasets` and the other listing and lookup routes) are not modelled; nor are `getParametros` and the `monedas` list.
- JavaScript values:
  - Amounts and balances are `real`, so floating-point rounding is not modelled.
  - The scholarship's maximum age (`edadMax`, a Mongoose `Number`) is an integer: the value of `Number(edadMax)` rounded down, or none when that is NaN. The age it is compared with is a whole number, and a whole number is above a number exactly when it is above that number rounded down (`ScholarshipMatch.AgeAboveFloor`), so the criterion is unchanged. An infinite maximum is not modelled.
  - NaN and non-numeric values enter only as "not a number above zero". `Number(...)` coercion of arbitrary values is summarised by an `Option`.
  - `String(...)` of non-string values is not modelled: category, note and date inputs are taken to be strings or absent.
  - Invalid `Date` objects are not modelled: a birth date is a present or absent calendar date.
  - Keys inherited from `Object.prototype` (such as "constructor") in table lookups are not modelled.
  - Case folding covers the Basic Latin letters and the Latin-1 letters whose case partner is a single Latin-1 letter. It leaves out ÿ (upper case Ÿ), µ (upper case Greek Μ), ß (upper case "SS") and every letter outside Latin-1.
  - `localeCompare` on the sortable keys is modelled as code-unit order. The keys are digit strings, where the two agree.
- The period sort is modelled by the element a stable sort puts first or last (`FirstBy`/`LastBy`), not by sorting the list. In the model file the hook's sort of stored dates is modelled by the minimum and maximum of those dates.
- The stored `fecha` of a movement document is a Mongoose `Date`; the model file represents it as an integer timestamp, absent when falsy.
- The clock: "today" and the current year are parameters of the scholarship matcher.
- The bearer token read from the environment is a parameter.
- `DatasetController.CreateDataset`:
  - the income and expense totals the source computes before creating the document are not stored on it, exactly as in the source; the model computes them with `Totals` and drops them.
- `DatasetModels.DatasetDoc.PreSave`: a `movements` value that is `null` is not modelled; the list is never null here (the schema's default is an empty array).
- `DatasetModels.AcceptsMovements`: the schema validator is stated on its own; no modelled operation calls it. Mongoose runs it on save, and saving is not modelled.
- `ScholarshipMatch.MeetsAcademicLevel`: an academic level that is not on the scale, on either side, never fails the criterion. The code then compares `undefined` ranks, and that comparison is always false.
- `ScholarshipMatch.Evaluate`: a thrown `TypeError` is an outcome of its own. It is neither a label nor a boolean.
