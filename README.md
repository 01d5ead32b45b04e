# Empower organizer tools and election-data helpers, in Dafny

This project models the in-memory logic of a set of Python scripts. The scripts serve a volunteer organizing tool ("Empower") and the preparation of Wisconsin election data. The model states what that logic promises and proves it.

- **Organizer tree and call-to-action tally** (`EmpowerTypes.py`):
  - Contacts are built from JSON or CSV dump records.
  - Organizers form a tree. Each organizer holds its direct contacts and its child organizers in dicts keyed by EID.
  - Counts (organizers below a node, contacts in its subtree) are computed recursively.
  - Activation rates are kept as integer percents.
  - The report walks write rows to a writer:
    - the text tree;
    - the organizer-tree CSV;
    - the unactivated-contacts CSV;
    - the unmatched-contacts CSV;
    - the activation-rate CSV;
    - the contact-interest CSV.
  - A CTA ("call to action") folds each result's answers into per-question option histograms.
  - Modules: `EmpowerContacts` (contacts.dfy), `EmpowerCta` (cta.dfy), `EmpowerOrganizers` (organizers.dfy).
  - Python's insertion-ordered `dict` is `OrderedDicts.ODict` (odict.dfy).
- **Contact data-quality classifier** (`EmpowerCommon.py`): a priority chain that gives a six-slot 0/1 vector with at most one 1. Module `EmpowerCommon` (common.dfy).
- **Ward and reporting-unit strings** (`map_wards_to_reporting_units.py`):
  - the range expander `extract_numbers`;
  - the regular-expression classifier, written as a recogniser;
  - the ward-format converter;
  - the municipality and county name helpers;
  - FIPS code building.

  Module `WardMapping` (wards.dfy).
- **Small helpers** (`edatools.py` and `empowerJSONhelpers.py`):
  - half-open date-time ranges;
  - blank tests over a string-or-number value;
  - the phone clean-up that runs before the phone library;
  - column-order edits on a frame's column names.

  Modules `EdaTools` (edatools.dfy) and `JsonHelpers` (json_helpers.dfy).
- **E-mail validator** (`emailtools.py`): module `Email` (email.dfy).
- **Set algebra on data frames** (`setoperations.py`). Intersection, union, difference and symmetric difference are done through a merge with keyword-argument dispatch. The two key filters are included too. Module `SetOperations` (setops.dfy).

The parts of Python's `str` that the code relies on live in `Text` (text.dfy): `strip`, `split`, `join`, `find`, `title`, `zfill`, `rjust`, `lower`, and integer text conversion. `Wrappers` (wrappers.dfy) holds `Option`, `Result` and the Python exception kinds.

How state is modelled:
- Objects whose fields the source updates in place are classes, and their methods carry `modifies` clauses: `Organizer`, `Question`, `Cta`, the report `Writer`, and the data frame of the column helpers.
- Everything else is datatypes and functions.
- The phone-number library, the clock and the ward mapping are parameters.

## Model

| member | source | states |
|---|---|---|
| EmpowerCommon.ContainsAny | EmpowerCommon.py:54-55 | `containsAny(s, L)` holds exactly when some element of `L` occurs in `s` as a substring |
| EmpowerCommon.FirstRunLength | EmpowerCommon.py:60-62 | the length of the first run of equal characters: at least 1, all equal to the first character, and ended by a different character or by the end |
| EmpowerCommon.TooManyChars | EmpowerCommon.py:60-64 | `tooManyChars` gives `None` (falsy) exactly for the empty string |
| EmpowerCommon.TooManyCharsStart | EmpowerCommon.py:60-64 | `tooManyChars` is true exactly when the first three characters are equal; later runs play no part |
| EmpowerCommon.NonPrintable | EmpowerCommon.py:92-95 | the characters outside `' '..'~'` are empty exactly when every character is printable ASCII |
| EmpowerCommon.FilterContactForValidData | EmpowerCommon.py:66-97 | six 0/1 slots with at most one 1. The matched slot is 1 iff the contact has a VAN id. The missing-phone slot is 1 iff there is no VAN id and the phone is empty. Each later slot is 1 iff every earlier test passes and its own test fails: bad first name, then bad last name (including two characters or fewer), then a non-printable-ASCII first name, then last name. The vector is all zero iff the contact classifies as clean |
| EmpowerCommon.CsvContactsClassifiedMatched | EmpowerCommon.py:84-85 | every contact read from the CSV dump carries a VAN id (possibly empty), so it classifies as `[1,0,0,0,0,0]` |
| EmpowerCommon.SubstringFlagsFirstName | EmpowerCommon.py:72-88 | the stoplist is matched by substring, so the first name `Maria` is flagged through `Ma` |
| EmpowerCommon.MissingFirstNameIsBad | EmpowerCommon.py:86-89 | a JSON contact with a phone, no VAN id and no first name gets the default `NoFirstName`, which the bad-first-name slot always flags |
| EmpowerContacts.OrDefault | EmpowerTypes.py:229-232 | an optional text field gives its value when present and non-empty, else the default |
| EmpowerContacts.ParentOf | EmpowerTypes.py:206-209 | a present parent that differs from the EID once stripped is the result, stripped; a missing parent or one equal to the node's own EID becomes `""` |
| EmpowerContacts.ParentOfIdempotent | EmpowerTypes.py:206-209 | reading an already-read parent EID gives it back |
| EmpowerContacts.JsonFirstName | EmpowerTypes.py:215-218 | a present first name is title-cased; a missing or empty one is `NoFirstName`; never empty |
| EmpowerContacts.JsonLastName | EmpowerTypes.py:219-225 | a present last name containing `DELETED` is kept verbatim and any other is title-cased; a missing or empty one is `NoLastName`; never empty |
| EmpowerContacts.JsonNamesStable | EmpowerTypes.py:215-225 | a present name read once reads back unchanged |
| EmpowerContacts.RegionOf | EmpowerTypes.py:212-213 | a present non-zero region id is the result; a missing or zero one gives 0 |
| EmpowerContacts.RegionOfIdempotent | EmpowerTypes.py:212-213 | a region id read once reads back unchanged |
| EmpowerContacts.FromJson | EmpowerTypes.py:204-245 | a record whose stripped parent is its own EID and whose last name is null raises AttributeError (the self-parent branch title-cases the last name); otherwise every field: stripped EID, the parent, the record's role, region, name, city (`NoCity`) and state (`WI`) rules, full name = lower(first) + lower(last), the record's email, the phone through the library, the record's zip, address and address 2, the record's VAN id and campaign VAN id, created stamp and CTA id, and CTA flags at -1 |
| EmpowerContacts.ParseCreated | EmpowerTypes.py:338-342 | `""` stays `""`; otherwise the result is the text before the single `T`, and a stamp that does not split into exactly two parts is a ValueError |
| EmpowerContacts.ParseCreatedDateTime | EmpowerTypes.py:338-342 | `date + "T" + time` parses back to `date` |
| EmpowerContacts.FromCsv | EmpowerTypes.py:178-202 | CSV construction succeeds iff the created stamp parses; the contact then has a stripped EID and parent, the title-cased first name, the last name kept when it contains `DELETED` and title-cased otherwise, the full-name rule, `WI` for an empty state, the row's city and region name, region id 0, the parsed date, CTA id 0, the row's role, email, zip, address and address 2, the phone through the library, the row's VAN id and campaign VAN id, and no CTA flags |
| EmpowerContacts.NamesAgree | EmpowerTypes.py:184-188 | the JSON and the CSV constructor give the same first, last and full name for the same present names |
| EmpowerContacts.VanIdOf | EmpowerTypes.py:314-317 | `GetVANID` is `""` exactly when the VAN id is missing or empty, and otherwise the VAN id |
| EmpowerContacts.CsvContactsHaveVanMatch | EmpowerTypes.py:334-335 | `HasVANMatch` is `vanId != None`, so every CSV contact has a VAN match, even one whose VAN id is `""` |
| EmpowerContacts.DisplayName | EmpowerTypes.py:328-329 | the shown name starts with the first name, a blank and the last name, then ` (`, and ends with `)` |
| EmpowerContacts.DisplayNameId | EmpowerTypes.py:328-329 | the id reads back from between the ` (` after the last name and the final `)`, so equal shown names for the same person have equal ids |
| EmpowerCta.SplitNChunks | EmpowerTypes.py:11-17 | the generator's loop yields the chunks of `n` words of the whitespace split, in order; it ends only when `n > 0` or the text has no words |
| EmpowerCta.ChunksRejoin | EmpowerTypes.py:11-17 | joining the chunks with spaces gives back the words joined with spaces: no word is lost or repeated |
| EmpowerCta.InitialOptionsKeys | EmpowerTypes.py:44-46 | a new question's options are exactly its non-empty option labels |
| EmpowerCta.InitialOptionsZero | EmpowerTypes.py:44-46 | every option count starts at 0, so the answer total starts at 0 |
| EmpowerCta.FirstMatch | EmpowerTypes.py:104-112 | the chosen option is the first, in declared order, whose alnum-lowercased label contains the alnum-lowercased answer; no earlier one does; -1 when none does |
| EmpowerCta.TallyCountsOne | EmpowerTypes.py:100-115 | folding a non-empty answer raises the sum of the option counts by exactly 1 |
| EmpowerCta.TallyMatched | EmpowerTypes.py:108-112 | a matched answer increments only the first matching option; the option order is unchanged |
| EmpowerCta.TallyUnmatched | EmpowerTypes.py:114-115 | an unmatched answer becomes a new last option, keyed by its raw text, with count 1 |
| EmpowerCta.PunctuationMatchesFirstOption | EmpowerTypes.py:104-112 | an answer with no alphanumerics compresses to `""`, which every label contains, so it counts for the first option |
| EmpowerCta.RecordCountsEachAnswerOnce | EmpowerTypes.py:100-117 | per question: an absent key leaves it untouched; an empty or `None` answer only raises the null count; a real answer leaves the null count alone; answers plus nulls rise by 1 exactly when the key is present |
| EmpowerCta.Question.constructor | EmpowerTypes.py:39-55 | options are the non-empty labels, each at 0; `values` and `surveyQuestionVanId` default to `[]` and 0; no null answers |
| EmpowerCta.Question.GetNumAnswers | EmpowerTypes.py:66-70 | the loop's result is the sum of the option counts |
| EmpowerCta.Question.AddAnswer | EmpowerTypes.py:104-115 | the options become the tally of the answer; the null count is unchanged |
| EmpowerCta.Question.AddNullAnswer | EmpowerTypes.py:116-117 | only the null count rises, by 1 |
| EmpowerCta.ResultFromRecord | EmpowerTypes.py:148-154 | the profile EID is stripped; notes are `""` exactly when the record's notes are missing or empty |
| EmpowerCta.QuestionTableKeys | EmpowerTypes.py:88-89 | the question dict holds exactly the keys of the record's questions (a later duplicate replaces an earlier one) |
| EmpowerCta.Cta.constructor | EmpowerTypes.py:76-90 | one fresh question per key of the record, `regionIds` defaulting to `[]`, and no results yet |
| EmpowerCta.Cta.AddCtaResult | EmpowerTypes.py:92-117 | the result is appended, so `GetNumCtaResults` rises by 1, and every question's histogram becomes its record of that result's answer |
| EmpowerCta.RecordAll | EmpowerTypes.py:96-117 | the loop over the questions records the answer into each question, with no question touched twice |
| OrderedDicts.ODict.Put | EmpowerTypes.py:413-417 | `d[k] = v` keeps a present key's position and appends a new key; the key list stays duplicate-free |
| OrderedDicts.SumPut | EmpowerTypes.py:66-70 | putting `v` under a key changes the value sum by `v` minus the old value (0 for a new key) |
| EmpowerOrganizers.OrganizerContactIdOfParts | EmpowerTypes.py:419-436 | an EID made of two or three hyphen-free parts shows its last part; one part, or four or more, shows the whole EID |
| EmpowerOrganizers.ParseLastUsedEmpower | EmpowerTypes.py:507-513 | text without `T` is kept; otherwise the date before the single `T`; a ValueError only when a `T` is present |
| EmpowerOrganizers.ParseLastUsedDateTime | EmpowerTypes.py:507-513 | `date + "T" + time` gives `date` |
| EmpowerOrganizers.TruncDiv | EmpowerTypes.py:438-441 | Python's `int()` of a quotient truncates toward zero, also for a negative activated count |
| EmpowerOrganizers.RatePercent | EmpowerTypes.py:438-451 | the rate is 0 when there are no direct contacts |
| EmpowerOrganizers.RateBounds | EmpowerTypes.py:438-451 | with 0 ≤ activated ≤ direct the rate lies in 0..100 and is the largest whole percent not above the exact share |
| EmpowerOrganizers.FullRate | EmpowerTypes.py:438-451 | the rate is 100 exactly when every direct contact responded |
| EmpowerOrganizers.SortDesc | EmpowerTypes.py:578 | `reversed(sorted(keys))` is descending and a permutation of the keys |
| EmpowerOrganizers.Organizer.constructor | EmpowerTypes.py:394-411 | empty dicts and rate maps, activated counts at -1, and a last login that is `None` unless the record has a non-zero one |
| EmpowerOrganizers.Organizer.AddContact | EmpowerTypes.py:413-414 | stores the contact under its EID; re-adding an EID replaces the entry and leaves the direct count unchanged, and a new EID raises it by 1; no other field changes |
| EmpowerOrganizers.Organizer.AddOrganizer | EmpowerTypes.py:416-417 | stores the child under its EID; re-adding an EID does not raise the child count; no other field changes |
| EmpowerOrganizers.Organizer.SetActivatedContactCountAnyCtas | EmpowerTypes.py:528-529 | sets only the any-CTA activated count |
| EmpowerOrganizers.Organizer.SetActivatedContactCountActiveCtas | EmpowerTypes.py:531-532 | sets only the active-CTA activated count |
| EmpowerOrganizers.Organizer.SetActivatedContactCountCurrentCtas | EmpowerTypes.py:534-535 | sets only the current-CTA activated count |
| EmpowerOrganizers.Organizer.GetOrganizerCount | EmpowerTypes.py:467-471 | the loop's result is the number of organizers below this one, counted recursively over the child dict and excluding the node itself |
| EmpowerOrganizers.Organizer.GetContactCount | EmpowerTypes.py:473-477 | the loop's result is the direct contacts plus, recursively, the contact counts of the child organizers |
| EmpowerOrganizers.Organizer.CollectUnactivated | EmpowerTypes.py:635-642 | lists, in dict order, the direct contacts whose any-CTA flag is not 1; their number is direct minus activated, the source's assertion |
| EmpowerOrganizers.UnactivatedMembers | EmpowerTypes.py:635-640 | a contact is listed as unactivated exactly when it is a direct contact that did not respond |
| EmpowerOrganizers.Organizer.Triage | EmpowerTypes.py:673-682 | the loop gives the unmatched list and the bad-data and matched counts of the direct contacts |
| EmpowerOrganizers.CountersDecide | EmpowerTypes.py:678-682 | the loop's tests on the counters (`results[0] > 0`, then `sum(results) > 0`) pick out exactly the VAN-matched bucket, then every failing bucket, and leave exactly the clean contacts |
| EmpowerOrganizers.UnmatchedMembers | EmpowerTypes.py:673-682 | a contact is listed as unmatched exactly when the classifier passes it as clean |
| EmpowerOrganizers.TriageTotal | EmpowerTypes.py:673-682 | every direct contact is counted exactly once: as matched, as bad data, or listed |
| EmpowerOrganizers.Organizer.NodeLine | EmpowerTypes.py:553-578 | the organizer's line in each report and the contacts listed under it |
| EmpowerOrganizers.Organizer.PrintSubtree | EmpowerTypes.py:553-720 | the rows of a walk are the specification `TreeRows`: the node's line, then the child subtrees 3 deeper, then its listed contacts. The text tree with voters also returns the full names of the node's own direct contacts |
| EmpowerOrganizers.PrintForest | EmpowerTypes.py:578-585 | walks a sequence of organizers in order, each with its whole subtree |
| EmpowerOrganizers.PrintContacts | EmpowerTypes.py:586-589 | one contact line per listed contact, numbered from 1, with the full names collected by the text tree |
| EmpowerOrganizers.Organizer.PrintTree | EmpowerTypes.py:542-551 | from a root with `startAtRoot`: the tree without voters plus a blank line, giving `[]`. Without `startAtRoot`: the tree with voters, giving the node's own voter names. A non-root with `startAtRoot` writes nothing and gives `None` |
| EmpowerOrganizers.Organizer.PrintReport | EmpowerTypes.py:593-736 | each CSV entry point writes nothing for a `deleted` organizer or one past the login cutoff. From a root with `startAtRoot` it writes the walk and a separator row; without `startAtRoot`, the walk alone |
| EmpowerOrganizers.Organizer.PrintContactInterest | EmpowerTypes.py:698-719 | the organizer chain, each line 3 deeper, then one line per interested contact up to the first EID missing from the directory, which raises `KeyError` |
| EmpowerOrganizers.ChainRows | EmpowerTypes.py:710-713 | the i-th organizer line sits at depth 3 i and shows that organizer's EID |
| EmpowerOrganizers.FirstMissing | EmpowerTypes.py:715-716 | the position of the first interested contact whose EID the directory lacks |
| EmpowerOrganizers.ContactRowsItems | EmpowerTypes.py:586-589 | the contact lines under an organizer all sit at the depth given |
| EmpowerOrganizers.TreeRowsBelow | EmpowerTypes.py:553-590 | depth grows by 3 per level: every line of a subtree is at or below its start, the first is the node's own line, and no separator appears inside a walk |
| EmpowerOrganizers.ForestRowsListEach | EmpowerTypes.py:605-615 | every organizer of a walked forest that is not skipped gets its line; the `deleted` role is tested only at the entry point, never in the recursion |
| EmpowerOrganizers.TreeCsvRowCount | EmpowerTypes.py:605-615 | the organizer-tree CSV has one line for the node plus one per organizer counted by `GetOrganizerCount` |
| EmpowerOrganizers.TextTreeWithoutVoters | EmpowerTypes.py:586-590 | without `showVoters` the text tree holds organizer lines only |
| EmpowerOrganizers.RankedBelow | EmpowerTypes.py:578-583 | every organizer in the rate buckets, walked from the highest rate down, lies in the organizer set and ranks below its parent |
| WardMapping.ExtractNumbers | map_wards_to_reporting_units.py:125-141 | the loop equals the specification `ExtractedNumbers`: ranges expand inclusively, and `None` when no number is found |
| WardMapping.NoDigitsNoNumbers | map_wards_to_reporting_units.py:134-141 | text without digits gives `None` |
| WardMapping.BackwardRangeNoNumbers | map_wards_to_reporting_units.py:136-138 | a backward range such as `5-3` expands to nothing, so `Ward 5-3` gives `None` |
| WardMapping.ExtractNumbersExample | map_wards_to_reporting_units.py:125-141 | `foo bar bazz 1-3,5-7,9` gives `1,2,3,5,6,7,9` |
| WardMapping.TokensRangeAt | map_wards_to_reporting_units.py:135-138 | at a `d-d` token the scan emits that range and resumes after it |
| WardMapping.TokensLoneAt | map_wards_to_reporting_units.py:139-140 | a lone digit run is kept as its integer value, so leading zeros drop |
| WardMapping.ProcessReportingUnitString | map_wards_to_reporting_units.py:143-184 | the totals labels give `None`; it raises exactly for a label with `,` and `-` in either order and no numbers to extract |
| WardMapping.SearchPair | map_wards_to_reporting_units.py:172-173 | the search for `d-d` or `d&d` at the end finds the first position where the pattern matches, and none exists when it fails |
| WardMapping.SingleLabel | map_wards_to_reporting_units.py:172-177 | a non-digit prefix followed by digits only is `single`, with the digits as data |
| WardMapping.HyphenLabel | map_wards_to_reporting_units.py:172-179 | a non-digit prefix then `d-d` at the end is `hypen` |
| WardMapping.AmpLabel | map_wards_to_reporting_units.py:172-181 | a non-digit prefix then `d&d` at the end is `amp` |
| WardMapping.CommaLabel | map_wards_to_reporting_units.py:172-183 | a non-digit prefix then `d,d` with no hyphen is `comma` |
| WardMapping.NoDigitLabel | map_wards_to_reporting_units.py:172-175 | a label without digits is `unmatched` with itself as data (or raises when it holds `,` and `-`), and converts through the converter |
| WardMapping.CommaHyphenExample | map_wards_to_reporting_units.py:161-168 | `foo bar bazz 1-3,5-7,9` is `commahyphen` with data `1,2,3,5,6,7,9`, converted to `Wards 1,2,3,5,6,7,9` |
| WardMapping.ConvertWardFormat | map_wards_to_reporting_units.py:272-310 | no unit gives `None`; an `unmatched` unit goes to the converter; a `hypen` unit whose search fails gives `None`, and a `single`, `amp`, `comma` or `commahyphen` unit whose search fails goes to the converter; any other present result starts with `Ward` |
| WardMapping.HyphenConverted | map_wards_to_reporting_units.py:289-292 | `hypen` gives `Wards ` and the comma list of the inclusive range |
| WardMapping.SingleConverted | map_wards_to_reporting_units.py:296-298 | `single` gives `Ward n` with the number's leading zeros dropped |
| WardMapping.AmpConverted | map_wards_to_reporting_units.py:299-301 | `amp` gives `Wards a,b` |
| WardMapping.ListConverted | map_wards_to_reporting_units.py:293-305 | `comma` and `commahyphen` give `Wards ` and the data when it has digits followed by `,`, and otherwise fall back to the converter |
| WardMapping.ConvertRowWithoutWard | map_wards_to_reporting_units.py:321-324 | as written, a label without `Ward` loses its last character, and its ward lookup in an empty mapping raises |
| WardMapping.ConvertRowDropsLetter | map_wards_to_reporting_units.py:321-324 | as written, `ConvertRow("Adams")` is `Adam` |
| WardMapping.MunicipalityNameAgrees | map_wards_to_reporting_units.py:321-324 | the corrected name agrees with `ConvertRow` when the label has a `Ward`, and keeps a label without one whole |
| WardMapping.LabelSplit | map_wards_to_reporting_units.py:250-270 | for `name Ward…` with no `Ward` in the name, the name part is the stripped name, and the lookup key is the `Ward…` suffix, which raises when the mapping lacks it |
| WardMapping.ConvertWardStrings | map_wards_to_reporting_units.py:250-270 | succeeds exactly when the suffix from `find('Ward')` is a key of the mapping, and gives the mapped value |
| WardMapping.CountyIdempotent | map_wards_to_reporting_units.py:312-319 | normalising a county name a second time changes nothing |
| WardMapping.CountyWithoutSpaces | map_wards_to_reporting_units.py:312-319 | a normalised county name has no whitespace |
| WardMapping.LaCrosseFixed | map_wards_to_reporting_units.py:313-314 | `La_Crosse` is a fixed point |
| WardMapping.StCroixFixed | map_wards_to_reporting_units.py:315-316 | `St_Croix` is a fixed point |
| WardMapping.TitleCaseReportingMcd | map_wards_to_reporting_units.py:326-353 | succeeds iff the code is `C`, `T` or `V`; `C` gives `City of `, `T` gives `Town of ` and `V` gives `Village of `, each followed by the title-cased name; any other code raises `Unexpected CTV option` |
| WardMapping.TitleCaseReportingMcdInjective | map_wards_to_reporting_units.py:326-353 | equal designation texts come from equal codes and equal title-cased names |
| WardMapping.PartialFipsDigits | map_wards_to_reporting_units.py:355-356 | the county FIPS followed by the subdivision number in at least five digits (exactly five below 100000), whose value is that number |
| WardMapping.ExpandFips | map_wards_to_reporting_units.py:358-386 | the loop equals the specification `ExpandedFips`, which is `None` exactly when `Wards` is empty or `MCD_FIPS` is `0` |
| WardMapping.ExpandFipsCodes | map_wards_to_reporting_units.py:372-383 | for `Wards a,b,…` the result splits on `|` into one code per ward: `MCD_FIPS` and the ward right-justified with `0` to width 4 |
| WardMapping.WardFipsDigits | map_wards_to_reporting_units.py:383 | a ward of up to four digits gives `MCD_FIPS` plus four digits holding the ward's value |
| WardMapping.ComputeWardLastField | map_wards_to_reporting_units.py:413-415 | `compute_ward` zero-fills the sole or last space-separated field to width 4, keeping a numeric field's value |
| EdaTools.BeforeOrder | edatools.py:64-65 | `<` on date-times is a strict total order |
| EdaTools.RangeEnds | edatools.py:64-65 | the range contains its start iff it is non-empty, never contains its end, and an empty or backward range contains nothing |
| EdaTools.AdjacentRanges | edatools.py:64-65 | `[a - b)` and `[b - c)` split `[a - c)` without overlap |
| EdaTools.PrintParts | edatools.py:67-68 | `print()` is `[`, the start as `str` writes it, ` - `, the end, and `)` |
| EdaTools.BlankMeansStripsToEmpty | edatools.py:96-109 | a string is blank iff it strips to empty; `IsNotBlank` is its negation on strings; numbers are blank and not not-blank |
| EdaTools.ParsePhoneUS | edatools.py:145-163 | fails only for `None`; numbers, `'None'`, `'nan'` and blank strings give `''`; any other string goes to the library after the clean-up |
| EdaTools.PhoneCandidatePiece | edatools.py:150-156 | the clean-up keeps a contiguous piece of the stripped text, at most two characters in, and leaves text of ten or fewer characters unchanged |
| EdaTools.PhoneCountryCode | edatools.py:151-154 | ten digits reach the library unchanged with or without a leading `1` or `+1` |
| EdaTools.PhoneTrailingZero | edatools.py:155-156 | an eleven-character number ending in `0` is cut to its first ten characters |
| EdaTools.InsertAtShape | edatools.py:231-244 | inserting a new column puts it exactly at the index, keeps the names distinct, and removing it restores the columns |
| EdaTools.RemoveAtShape | edatools.py:277-283 | popping a column removes only it, and inserting it back at its place restores the columns |
| EdaTools.Frame.Insert | edatools.py:243 | `df.insert` raises ValueError for a present name and IndexError for a place outside `0..len`, changing nothing; otherwise the name goes in at the place |
| EdaTools.Frame.Pop | edatools.py:276 | `df.pop` raises KeyError for a missing name, else removes that column |
| EdaTools.Frame.SetColumn | edatools.py:283 | `df[name] = data` appends a new name and leaves a present one in place |
| EdaTools.InsertDataAtIndex | edatools.py:231-244 | succeeds iff the name is new and the index is in `0..len`, and then places the column at that index |
| EdaTools.InsertDataAtLabel | edatools.py:246-264 | a missing `next_to_label` is a ValueError; otherwise the column goes in at index+1 (`insert_after`) or index−1 |
| EdaTools.InsertNextTo | edatools.py:258-263 | after the insert, the new column sits immediately right of `next_to_label`; with `insert_after` false, one column lies between them |
| EdaTools.InsertBeforeAdjacent | edatools.py:246-263 | inserting at the label's own index puts the new column immediately left of it, and removing it gives the columns back |
| EdaTools.ColumnMove | edatools.py:274-278 | a missing column is a KeyError; otherwise the column is popped and re-inserted at `new_index` |
| EdaTools.MoveShape | edatools.py:274-278 | the moved column sits at `new_index`, the length is kept, and the others keep their relative order |
| EdaTools.ColumnMoveToEnd | edatools.py:280-284 | a missing column is a KeyError; otherwise it is popped and appended |
| EdaTools.MoveToEndShape | edatools.py:280-284 | the column ends last, the others keep their order, and the names stay distinct |
| EdaTools.ColumnSwap | edatools.py:266-271 | defined iff both or neither column is present; `col1` and `col2` trade places and every other column is fixed |
| EdaTools.SwapTwice | edatools.py:266-271 | swapping twice restores the column order |
| EdaTools.SwapPermutes | edatools.py:266-271 | a swap keeps the same distinct names |
| JsonHelpers.ParsePhoneUS | empowerJSONhelpers.py:106-120 | fails only for `None`; numbers, `'None'`, `'nan'` and blank strings give `''`; any other string goes to the library after this file's clean-up, which does not strip |
| JsonHelpers.PhoneCandidatesAgree | empowerJSONhelpers.py:106-115 | apart from a leading `+` on a long number, the clean-up agrees with the one in `edatools.py` |
| JsonHelpers.PlusOneKept | empowerJSONhelpers.py:110-115 | a `+1` number keeps its `+1` here, where `edatools.py` drops it |
| JsonHelpers.PhoneCountryCode | empowerJSONhelpers.py:110-113 | ten digits reach the library unchanged with or without a leading `1` |
| JsonHelpers.InsertDataAtLabel | empowerJSONhelpers.py:169-175 | the new column is set on the frame, and then the list with the last column moved to one past `next_to_label` is returned; a missing `next_to_label` is a ValueError raised after the frame has the column |
| JsonHelpers.InsertNextToNew | empowerJSONhelpers.py:169-175 | for a new column, the result puts it immediately right of `next_to_label` with every other column in its original order |
| JsonHelpers.InsertExistingMovesLast | empowerJSONhelpers.py:169-175 | when the label already exists nothing is appended, so the frame's last column is the one moved: it lands immediately right of `next_to_label` and the others keep their order |
| Email.FullMatchIsAddress | emailtools.py:6-8 | the recogniser accepts exactly the strings of the form local `@` domain `.` tld of the pattern |
| Email.OneAt | emailtools.py:6-8 | an accepted address has exactly one `@`, not at the start |
| Email.AllowedChars | emailtools.py:6-8 | every character of an accepted address is in the local-part class or is the `@`, apart from one final newline |
| Email.TrailingNewline | emailtools.py:6-8 | `$` lets one trailing `\n` through but never two |
| Email.NoNewline | emailtools.py:6-8 | the pattern proper never matches text ending in a newline |
| Email.Examples | emailtools.py:6-8 | `a@b.cc` is accepted; `a@b.c` and `@b.cc` are refused |
| SetOperations.Dispatch | setoperations.py:3-34 | no keyword arguments select whole rows; `on` selects the same key on both sides; `left_on` with `right_on` select a key per side; anything else is the ValueError |
| SetOperations.Resolve | setoperations.py:3-34 | a whole-row merge needs a common column; a keyed merge needs key lists of equal length whose names each side has |
| SetOperations.BadKwargsRaise | setoperations.py:3-40 | every set operation raises the ValueError for unsupported keyword arguments |
| SetOperations.TestThrows | test_setoperations.py:58-59 | `SetIntersection(ydf, zdf, foo='x1')` raises |
| SetOperations.InnerMembers | setoperations.py:3-9 | the inner merge holds exactly the pairs of a left and a right row whose keys agree |
| SetOperations.OuterMembers | setoperations.py:11-17 | the outer merge holds the inner pairs, the left rows with no match, and the right rows with no match |
| SetOperations.OuterLeftCount | setoperations.py:11-17 | each pair occurs in the outer merge as often as in the inner merge |
| SetOperations.DifferenceIsUnmatched | setoperations.py:19-34 | the difference is exactly the left rows that match nothing on the right under the resolved key columns |
| SetOperations.OuterLeftOnly | setoperations.py:19-34 | the `left_only` rows of the outer merge are the unmatched left rows, in order |
| SetOperations.SymmetricDifferenceMembers | setoperations.py:37-40 | the result holds the one-sided rows of the union that occur only once in union plus intersection |
| SetOperations.UniqueMembers | setoperations.py:37-40 | `drop_duplicates(keep=False)` keeps exactly the rows that occur once |
| SetOperations.FilterPartition | setoperations.py:42-48 | with the key column on both sides, include and exclude split the left rows: as multisets they add up to the rows, and a row is included iff its key occurs in the right frame's column |
| SetOperations.IncludedPartition | setoperations.py:42-48 | the order-keeping filter and its complement partition the rows |
| SetOperations.TestIntersectionUnion | test_setoperations.py:40-63 | the two test frames intersect to {B2, C3}, and their union is A1, B2, C3, D4, each once |
| SetOperations.TestDifferences | test_setoperations.py:65-74 | ydf−zdf is {A1} and zdf−ydf is {D4} |
| SetOperations.TestSymmetricDifference | test_setoperations.py:76-78 | the symmetric difference is {A1, D4} |
| SetOperations.TestFilters | test_setoperations.py:80-86 | filtering on `x1` includes the A and B rows and excludes the C row |
| Text.SplitJoin | EmpowerTypes.py:422-426 | splitting hyphen-free parts joined with `-` gives the parts back, which is what `GetContactID` counts |
| Text.TitleIdempotent | map_wards_to_reporting_units.py:319 | `str.title` applied twice is `str.title` applied once |
| Text.ZFillDigits | map_wards_to_reporting_units.py:415 | `zfill` of digits keeps their value |
| Text.ParseIntToStr | map_wards_to_reporting_units.py:138-140 | `int(str(i)) == i` |
| Text.AlnumLower | EmpowerTypes.py:104-110 | the normalised answer or label holds only lower-case alphanumerics |

## Left out

- Rates are integer percents, truncated toward zero, where the source keeps hundredths of one as a float. Floating-point artefacts such as `29/100*100` not being 29 are not modelled.
- `GetDaysSince*`, `GetLastUsedEmpower` and `strftime` need the wall clock or time-zone conversion. The clock enters the activation CSV as the parameter `elapsedDays`; the day and time columns of the CSV rows are not modelled.
- Column widths, padding and the `'` and `-` prefix of report lines are not modelled. A row is its depth and its fields.
- The verbose ancestor-chain suffix of text-tree lines is not modelled.
- `Contact.Print` and the per-contact CSV writers are folded into one contact row per report.
- `Organizer.GetParent` is not modelled: it calls `GetParentEID` without `self` and would raise.
- The rate buckets, the inactive list, the activated counts and the responded flags are filled by code that is not part of this model. They are fields the caller sets, with `Ready` as the precondition the unactivated walk asserts.
- The phone-number library is the parameter `library` / `formatPhone`. Its parsing and formatting are not modelled.
- `ward_mappings` is not part of this model. It is the parameter `wardMappings`.
- Character classes, `lower`, `title` and `isspace` are ASCII only. Unicode case mapping and Unicode digits are not modelled.
- `int()` accepting underscores between digits is not modelled.
- The pandas pipelines of the ward file are not modelled: `InitializeWECDataFrames`, `PreprocessData`, `ProcessReportingUnitData`, `CreateElectionData` and `CreateVoterRegistrationData`. The same goes for `ConvertNaiveDatesToUtc`, `ConvertToDatetime`, `SplitTime`, `CleanPhone` and `InitializeDataFrames`.
- Frames in the column helpers are their column names only. Cell data is not modelled.
- `Frame.Insert`: a negative position in `df.insert` is treated as an IndexError.
- The JSON helpers' `DatetimeRange`, `IsBlank`/`IsNotBlank` and `InsertDataAtIndex` are the same code as in `edatools.py`. They are modelled once, by the `EdaTools` members.
- `setoperations.Query` evaluates arbitrary pandas expressions and is not modelled.
- Set operations:
  - the outer merge's sorting of keys is not modelled; merged rows come in left order, then the right-only rows;
  - the `_x`/`_y` suffixing of overlapping column names is not modelled; a merged row keeps both sides;
  - cells are text, so the test frames' integers are written as digits;
  - `on` given as one string is modelled as a one-element list;
  - keyword arguments other than `on`, `left_on` and `right_on` are ignored;
  - index resets are not modelled.
- `Contact.Print` and `PrintUnactivatedToCSV` call `GetTimeCreated` and `GetDaysSinceCreated`, which divide `m_Created` by 1000. For a contact read from the CSV dump `m_Created` is a date string, so the source raises TypeError there, after the earlier lines are written. The model's contact rows carry no created column and do not raise; this crash is not modelled.
- `SplitNChunks`: with `n == 0` and a text that has words, the source's generator never advances and the program hangs. `Cta.Print` reaches this for a CTA whose name is blank and whose question text has words. The model requires `n > 0` or a text without words and does not represent the hang.
- `Closed`: the walks require organizers whose references go strictly down a rank. On a parent cycle such as A and B being each other's child, the source's recursive walks end in RecursionError; the model does not represent such trees.
- `FromJson`: the self-parent branch also prints the title-cased last name; that output is not modelled, only the AttributeError it raises for a null last name.
- `DateTime` has no microseconds and no time zone, so `str()` of a date-time that carries either is not modelled by `PrintParts`.
- `ProcessReportingUnitString`: that the `comma` data is the longest `\d+(,\d+)*` prefix of the rest is proved only for `d,d` labels (`CommaLabel`), not for every label.

## Findings

| source | as written | input that shows it | evidently intended | confidence | as-written member | corrected member |
|---|---|---|---|---|---|---|
| edatools.py:258-263 | with `insert_after=False` the index is `index(next_to_label) - 1`, which places the new column one further left than the label | columns `[a, b]`, label `b`: the new column lands before `a`, with `a` between it and `b` | the new column immediately left of `next_to_label`, at the label's own index | not executed | EdaTools.InsertNextTo | EdaTools.InsertBeforeAdjacent |
| map_wards_to_reporting_units.py:321-324 | `ConvertRow` slices `row[:row.find('Ward')]`, and `find` gives -1 when `Ward` is absent, so the slice drops the last character | `"Adams"` gives `"Adam"` | a label without `Ward` is kept whole, as the municipality name | not executed | WardMapping.ConvertRowDropsLetter | WardMapping.MunicipalityNameAgrees |
