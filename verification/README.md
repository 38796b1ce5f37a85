# Kidney donor–recipient matching, modelled in Dafny

This project models the decision logic of a kidney transplant matching
application (Kmpfinal). At its centre is the compatibility engine. Given a
recipient and a pool of donors, it screens every donor for the recipient's
unacceptable HLA antigens. It then checks ABO/Rh blood type and crossmatch,
counts HLA antigen matches locus by locus, and computes a gated score. Finally
it ranks the results: excluded donors go last, higher scores come first, and
donors with equal keys keep their pool order. The project also models the
application's older utility versions as separate modules:

- a blood-type table laid out the other way round;
- a comma-only allele parser, formatter and comparer;
- an exact-string locus comparer.

It also covers:

- the employee form rules;
- the donor list page's search filter and delete guard;
- the report generator's partition of results, summary figures, "Other
  Donors" rows and colour parser.

Modules follow the source files:

| module | file | models |
|---|---|---|
| `Wrappers`, `Seqs`, `Text` | `wrappers.dfy`, `seqs.dfy`, `text.dfy` | `Option`/`Result`; order-preserving filter and subsequences; ASCII trimming, case mapping, splitting, joining and substring search |
| `Records` | `records.dfy` | donors, recipients, HLA typings, match details and results |
| `BloodGroups` | `blood_groups.dfy` | the eight blood-type labels and the standard ABO/Rh donation rule, used as a reference |
| `Matching` | `matching.dfy` | `src/lib/api/matching.ts`: blood-type lookup, antigen screen, HLA counter, score, per-donor gate sequence |
| `Ranking` | `ranking.dfy` | the sort and the pure part of `findCompatibleDonors` |
| `MatchingExamples` | `matching_examples.dfy` | worked instances: the score at 6 matches, the parity-dependent cap, the semicolon difference between the two tokenizers |
| `BloodTypeTable` | `blood_type_table.dfy` | `src/lib/utils/matching/blood-type.ts` |
| `HlaAlleles` | `hla_alleles.dfy` | `src/lib/utils/matching/hla.ts` |
| `ExactLoci` | `exact_loci.dfy` | `src/utils/matching.ts` |
| `EmployeeValidation` | `employee.dfy` | `src/lib/validations/employee.ts` |
| `DonorList` | `donor_list.dfy` | the state logic of `src/pages/DonorList.tsx` |
| `Report` | `report.dfy` | the data decisions of `src/lib/utils/report.ts` |

Modelling choices:

- Scores are exact `real` values, not IEEE doubles.
- Strings are `seq<char>`. JavaScript's `\s`, `trim`, `toUpperCase` and
  `toLowerCase` are restricted to ASCII.
- A regex split on a run of delimiters followed by dropping empty strings is
  modelled as a split at every single delimiter followed by dropping empty
  strings. The two give the same tokens.
- In the HLA counter the empty pieces of a single-delimiter split are never
  counted. The source skips empty tokens in the same way, so the counts agree.
- Absent HLA and antigen fields are the empty string, which is what the
  record transforms produce.
- An absent typing, where the source allows one, is `None`.

Where the program's own comments or its two tokenizers disagree with what
the code computes, the model follows the code:

- **The per-locus HLA cap depends on parity.** The comments at
  `src/lib/api/matching.ts:292` and `:328` promise up to 2 matches per locus
  and 12 in all. The code stops scanning a locus once the running total is
  even (line 294). A locus entered with an odd total therefore adds at most 1
  (`Matching.Cap`, `MatchingExamples.LocusCapFollowsParity`). The total still
  never exceeds 12.
- **Only the antigen screen splits on semicolons.** The screen splits on
  comma, semicolon and whitespace (`src/lib/api/matching.ts:244`). The HLA
  counter splits on comma and whitespace only (lines 286-287), so `B7;DR4`
  is two antigens for the screen but one token for the counter
  (`MatchingExamples.SemicolonExample`).
- **The engine's `O+` row includes `O-`.** Its blood-type table lets an `O+`
  donor give to an `O-` recipient. The standard rule forbids this. The model
  keeps the table as written, and `Matching.BloodTableAgainstStandardRule`
  proves that this pair is the only difference from the standard rule.

## Model

| member | source | states |
|---|---|---|
| Matching.IsBloodTypeCompatible | src/lib/api/matching.ts:343-360 | an `O-` donor is compatible with every recipient label, even unknown ones; a donor label outside the eight types is never compatible; any other acceptance names a valid recipient type |
| Matching.BloodTableAgainstStandardRule | src/lib/api/matching.ts:349-358 | for the eight types, the table agrees with the standard ABO/Rh rule except that it also accepts an `O+` donor for an `O-` recipient |
| Matching.AntigenTokens | src/lib/api/matching.ts:243-246 | the screen's tokenizer yields only non-empty tokens |
| Matching.BlankTextHasNoTokens | src/lib/api/matching.ts:238-250 | empty or whitespace-only antigen text yields no tokens |
| Matching.CheckUnacceptableAntigens | src/lib/api/matching.ts:234-272 | the matched antigens are, in order and with duplicates, exactly the recipient's unacceptable tokens found among the donor's tokens from all loci; the donor is excluded iff that list is non-empty; blank text or no tokens means not excluded with an empty list |
| Matching.ScreenTokens | src/lib/api/matching.ts:248-271 | an empty token list excludes nothing; otherwise the matched tokens are a subsequence of the list with the multiplicities of those present in the donor's antigens |
| Matching.MatchedTokens | src/lib/api/matching.ts:264-266 | the kept tokens are an ordered subsequence holding every token present among the donor antigens, as often as it occurs, and no other |
| Matching.ScanLocus | src/lib/api/matching.ts:290-296 | one locus adds the number of non-empty matching donor tokens, capped at 2 from an even running total and at 1 from an odd one |
| Matching.LocusMatches | src/lib/api/matching.ts:281-297 | a locus with a blank donor or recipient value adds nothing; any locus adds at most its cap; otherwise it adds the capped number of matching tokens |
| Matching.CountLoci | src/lib/api/matching.ts:280-298 | the loop over loci adds at most 2 per locus; when every locus is blank on one side, the total is unchanged |
| Matching.CountLociStep | src/lib/api/matching.ts:280-298 | counting one more locus is one more `LocusMatches` step on the running total, as the loop accumulates |
| Matching.CalculateHLAMatches | src/lib/api/matching.ts:274-301 | the count is 0 when either typing is absent or every locus is blank on one side, and never exceeds 12 |
| Matching.HlaMatchesLocusByLocus | src/lib/api/matching.ts:279-300 | the count is the running total after the loci A, B, C, DR, DQ and DP in that order, each one `LocusMatches` step from 0 |
| Matching.ScanLocusLoop | src/lib/api/matching.ts:290-296 | the inner loop with its `break` computes exactly the capped count of `ScanLocus` |
| Matching.LocusStep | src/lib/api/matching.ts:281-297 | one pass of the outer loop (trim, skip blank values, scan) equals `LocusMatches` |
| Matching.CountHLAMatches | src/lib/api/matching.ts:274-301 | the two nested loops compute `CalculateHLAMatches` and stay at or below 12 |
| Matching.CalculateCompatibilityScore | src/lib/api/matching.ts:311-341 | the score is 0 iff blood type or crossmatch fails or there are fewer than 3 matches; otherwise it is 1/2 + min(h,12)/24, which lies in [0.625, 1] |
| Matching.ScoreMonotoneInHla | src/lib/api/matching.ts:320-340 | more HLA matches never lower the score |
| Matching.EvaluateDonor | src/lib/api/matching.ts:143-219 | the antigen screen runs first and, when it fires, forces score 0, both flags false, 0 matches and a reason listing the matched antigens; otherwise blood type, then crossmatch by string equality, each failure giving score 0, 0 matches and its fixed reason; a donor through all gates has the computed match count, and the reason is "Insufficient HLA matches" iff fewer than 3 matches; a donor through all gates is scored by `calculateCompatibilityScore` with both flags true and its match count; the score is 0 iff some gate failed, iff a reason is given |
| Ranking.Insert | src/lib/api/matching.ts:222-229 | inserting adds exactly one element: the result is a permutation of the list plus it |
| Ranking.Rank | src/lib/api/matching.ts:222-229 | the sort returns a permutation of its input |
| Ranking.InsertRanked | src/lib/api/matching.ts:222-229 | inserting into a list ordered by the comparator keeps it ordered |
| Ranking.RankRanked | src/lib/api/matching.ts:222-229 | the sorted list never puts a result after one the comparator must place behind it |
| Ranking.InsertKeyClass | src/lib/api/matching.ts:222-229 | an inserted result lands ahead of every result with the same key |
| Ranking.RankStable | src/lib/api/matching.ts:222-229 | results with equal keys (same exclusion flag and score) keep their input order, as a stable `Array.prototype.sort` guarantees |
| Ranking.EvaluateAll | src/lib/api/matching.ts:143-219 | one result per donor, in pool order, each from the gate sequence |
| Ranking.FindCompatibleDonors | src/lib/api/matching.ts:143-231 | the output is a permutation of the per-donor results; every non-excluded result precedes every excluded one; scores never increase within a group; equal keys keep pool order |
| MatchingExamples.ScoreAtSixMatches | src/lib/api/matching.ts:311-341 | 6 matches score 0.75, 2 matches score 0, and 20 matches are capped at a score of 1 |
| MatchingExamples.LocusCapFollowsParity | src/lib/api/matching.ts:290-296 | a locus with two matching tokens adds 2 from a running total of 0 or 2, but only 1 from a running total of 1 |
| MatchingExamples.ScreenSplitsSemicolon | src/lib/api/matching.ts:243-246 | the screen splits two plain antigen names joined by `;` into two tokens |
| MatchingExamples.CounterKeepsSemicolon | src/lib/api/matching.ts:286-287 | the HLA counter keeps two names joined by `;` as one token |
| MatchingExamples.SemicolonExample | src/lib/api/matching.ts:243-287 | `B7;DR4` is two antigens for the screen and one token for the counter |
| BloodGroups.Parse | src/lib/utils/matching/blood-type.ts:1 | exactly the eight labels of the `BloodType` type are read, each back to the type it names |
| BloodGroups.ParseName | src/lib/utils/matching/blood-type.ts:1 | every blood type reads back from its label |
| BloodTypeTable.RowIsReceiverList | src/lib/utils/matching/blood-type.ts:4-13 | each row lists exactly the types its key may receive from under the standard rule, so every row holds its own key and `O-` |
| BloodTypeTable.IsBloodTypeCompatible | src/lib/utils/matching/blood-type.ts:15-24 | as written, an `O-` donor suits everyone; any other donor suits exactly the recipients in the donor's row, i.e. the recipients that could donate to the donor |
| BloodTypeTable.AsWrittenReflexive | src/lib/utils/matching/blood-type.ts:5-12 | as written, every type is compatible with itself |
| BloodTypeTable.AsWrittenExtremes | src/lib/utils/matching/blood-type.ts:6-12 | as written, `AB+` is compatible with all eight types, and `O+` only with `O-` and `O+` |
| BloodTypeTable.AsWrittenCounterexample | src/lib/utils/matching/blood-type.ts:15-24 | as written, `AB+` is accepted for an `O-` recipient although forbidden, and `O+` is refused for `A+` although allowed |
| BloodTypeTable.IsBloodTypeCompatibleCorrected | src/lib/utils/matching/blood-type.ts:4-24 | reading the recipient's row gives exactly the standard donation rule |
| HlaAlleles.ParseHLAAlleles | src/lib/utils/matching/hla.ts:3-10 | the empty string parses to no alleles; every parsed allele is non-empty, trimmed and comma-free |
| HlaAlleles.FormatHLAAlleles | src/lib/utils/matching/hla.ts:12-15 | no alleles format as "Not Available"; one allele formats as itself |
| HlaAlleles.SplitJoined | src/lib/utils/matching/hla.ts:6-14 | splitting a `", "`-joined list at commas gives the first allele and each later one behind a blank |
| HlaAlleles.FormatThenParse | src/lib/utils/matching/hla.ts:3-15 | parsing the formatted text gives back any non-empty list of non-empty, trimmed, comma-free alleles |
| HlaAlleles.EmptyDoesNotRoundTrip | src/lib/utils/matching/hla.ts:3-15 | the empty list does not round-trip: it comes back as ["Not Available"] |
| HlaAlleles.ParseSingle | src/lib/utils/matching/hla.ts:3-10 | one trimmed, comma-free allele parses to itself |
| HlaAlleles.CompareHLAAlleles | src/lib/utils/matching/hla.ts:17-32 | `total` is the number of recipient alleles; `matches` counts recipient alleles present verbatim among the donor's, repetitions included; matches never exceed total |
| HlaAlleles.CompareWithItself | src/lib/utils/matching/hla.ts:17-32 | comparing a typing with itself matches every allele |
| ExactLoci.CalculateHLAMatches | src/utils/matching.ts:6-23 | 0 when either typing is absent; otherwise the number of loci whose raw strings are equal, at most 6 |
| ExactLoci.Symmetric | src/utils/matching.ts:13-19 | swapping donor and recipient gives the same count |
| ExactLoci.IdenticalTypings | src/utils/matching.ts:13-19 | identical typings score 6 |
| ExactLoci.FullScoreMeansIdentical | src/utils/matching.ts:13-19 | a score of 6 happens exactly when the two typings are identical |
| EmployeeValidation.ParseRole | src/lib/validations/employee.ts:16-18 | a role is accepted iff it is Doctor, Nurse or Administrator |
| EmployeeValidation.LengthChecks | src/lib/validations/employee.ts:4-15 | a `min`/`max` pair reports no failure iff the length is within both bounds, inclusive |
| EmployeeValidation.StateAfterIsExpected | src/lib/validations/employee.ts:23 | the pattern recognizer's state after any prefix is the one its shape predicts |
| EmployeeValidation.CodePatternMeaning | src/lib/validations/employee.ts:23 | the pattern matches exactly strings of two or more characters whose first and last are letters or digits and whose inner characters are letters, digits or hyphens |
| EmployeeValidation.CodeShapeHasNoSpace | src/lib/validations/employee.ts:23-27 | a string of that shape has no whitespace, so the trailing `trim` is the identity on accepted codes |
| EmployeeValidation.ValidateEmployeeCode | src/lib/validations/employee.ts:19-31 | `employee_code`, and `employeeCodeSchema` with it, accepts iff 2 to 20 characters of the pattern's shape (one character is always refused), returns the code unchanged, and otherwise reports at least one failure |
| EmployeeValidation.RoleChecks | src/lib/validations/employee.ts:16-18 | the role check passes iff a role is given and it is one of the three |
| EmployeeValidation.ValidateEmployee | src/lib/validations/employee.ts:3-28 | the form is accepted iff the full name has 1 to 100 characters (100 included), the email is non-empty and an address, the password has 8 to 100 characters, the role is one of the three and the code passes its rule; the accepted employee carries the inputs; a rejection lists at least one issue |
| DonorList.FilterWhen | src/pages/DonorList.tsx:43-64 | an inactive filter keeps the list; an active one keeps, in order, each donor passing its test with all its occurrences |
| DonorList.HandleSearch | src/pages/DonorList.tsx:39-67 | the result is an order-preserving subsequence of the donors; it holds each donor passing every active condition (case-insensitive query in name or MRN, exact blood type, exact status) as often as in the list, and no other; with no query and no filters it is the whole list |
| DonorList.SearchCombines | src/pages/DonorList.tsx:43-64 | the three successive filters together keep exactly the donors that pass all active conditions |
| DonorList.HandleDelete | src/pages/DonorList.tsx:69-76 | deleting a utilized donor is refused and changes nothing; an available donor becomes the selection and the dialog opens, lists untouched and no notice raised |
| DonorList.WithoutId | src/pages/DonorList.tsx:87-88 | the filtered list drops exactly the entries with the id and keeps the rest in order |
| DonorList.ConfirmDelete | src/pages/DonorList.tsx:82-97 | with no selection nothing happens; after a successful delete both lists lose exactly the entries with the selected id, the rest in order; a failed delete keeps both lists; either way the dialog closes and the selection clears |
| Report.CompatibleDonors | src/lib/utils/report.ts:193 | compatible means not excluded and a positive score; the list is an ordered subsequence of the results with exactly those |
| Report.IncompatibleDonors | src/lib/utils/report.ts:194 | incompatible means score 0 and not excluded; the list is an ordered subsequence of the results with exactly those |
| Report.ExcludedDonors | src/lib/utils/report.ts:195 | excluded means unacceptable antigens; the list is an ordered subsequence of the results with exactly those |
| Report.PartitionSizes | src/lib/utils/report.ts:193-195 | with no negative score the three list lengths add up to the number of results |
| Report.PartitionDisjoint | src/lib/utils/report.ts:193-195 | no result is in two of the three lists |
| Report.MaxScore | src/lib/utils/report.ts:204 | the maximum of a non-empty list is one of its scores and no score exceeds it |
| Report.Summarize | src/lib/utils/report.ts:198-206 | the totals are the list lengths; a best score is reported iff some donor is compatible, and it is the highest compatible score |
| Report.SortedCompatibleDonors | src/lib/utils/report.ts:212-213 | the compatible section is a permutation of the compatible donors in non-increasing score order, equal scores in list order |
| Report.ReasonText | src/lib/utils/report.ts:274 | a non-empty reason is shown as is; a missing or empty one becomes "Incompatible match" |
| Report.OtherDonorRows | src/lib/utils/report.ts:270-275 | one row per incompatible donor, then one per excluded donor; status "Incompatible" for the first block and "Excluded" for the second; each reason from its donor with the fallback; no cell empty |
| Report.OtherRowsOf | src/lib/utils/report.ts:270-275 | the row mapping gives the status from the exclusion flag and the reason with its fallback, block by block |
| Report.HexToRgb | src/lib/utils/report.ts:123-130 | a colour is returned iff the input is an optional `#` and six hex digits of either case; each component is its digit pair's value, below 256 |
| Report.HexRoundTrip | src/lib/utils/report.ts:123-130 | every colour written as `#rrggbb` parses back to itself |
| Report.CompatibleGreen | src/lib/utils/report.ts:123-130 | `#22c55e` parses to (34, 197, 94) |

## Left out

- Storage I/O: the Supabase fetches of `findCompatibleDonors`, the stored
  match results, and the donor, recipient, employee and auth APIs. The engine
  is modelled over an already loaded recipient and donor pool.
- The record transforms that map stored rows to records. The model takes
  records whose absent HLA and antigen fields are already the empty string.
- UI, routing, session handling, toasts and navigation. The outcome of the
  storage call in `confirmDelete` is a boolean parameter, and toasts become a
  `Notice` value.
- `src/pages/Reports.tsx`: its partition repeats the one in `report.ts`, and
  the rest is rendering.
- PDF drawing, page breaks, date formatting, `toFixed`, printing and random
  identifiers.
- Floating point: scores are exact reals, so IEEE rounding of
  `x / 12 * 50 / 100` is not modelled.
- Unicode: whitespace, `trim` and case mapping are ASCII only.
- EmployeeValidation.LengthChecks: lengths count characters, while the
  validation library counts UTF-16 code units. A character outside the Basic
  Multilingual Plane (an emoji, say) counts twice in the source and once
  here. For example, a password of four emoji is accepted by the source and
  rejected by the model.
- EmployeeValidation.ValidateEmployee: the same UTF-16 difference applies to
  the full name and password bounds. `ValidateEmployeeCode` is unaffected,
  because an accepted code is ASCII.
- The email grammar of the validation library: `ValidateEmployee` takes it as
  the predicate `isEmail`. The library's default message for an unknown role
  is not modelled; the model only says that such a role fails.
- `Object.values` key order in the antigen screen. The donor's antigens are
  taken in locus order A, B, C, DR, DQ, DP. Only membership is used, so the
  order does not matter.
- Matching.IsBloodTypeCompatible: the model returns false for every label
  other than the eight blood types. In the source, a label naming a property
  that plain objects inherit (such as `constructor` or `toString`) finds a
  function in the table (`src/lib/api/matching.ts:360`). Its missing
  `includes` then throws a `TypeError`, which aborts the whole `donors.map`
  of `findCompatibleDonors`. The same holds at
  `src/lib/utils/matching/blood-type.ts:23` if such a string gets past the
  type.
- `BloodTypeTable.IsBloodTypeCompatible`: it takes the typed `BloodType`
  values. It does not model a caller passing an arbitrary string at run
  time, which the TypeScript type does not prevent.
- Matching.AntigenTokens: the contract states only that tokens are non-empty.
  That they are upper-cased and free of delimiters follows from the definition
  but is not stated.
- Matching.CountLoci: the contract gives the per-locus bound and the
  blank-loci case. The exact count is stated step by step by
  `Matching.CountLociStep` and `Matching.HlaMatchesLocusByLocus`.
- Report.Summarize: the counts and the best score are modelled; their text
  formatting and colours are not.
- Report.OtherDonorRows: the contract says the name and blood-type cells are
  never empty. It does not restate the "N/A" fallback, which is the only value
  they can take besides the donor's own field.

## Findings

| source | as written | input that shows it | evidently intended | confidence | as-written member | corrected member |
|---|---|---|---|---|---|---|
| src/lib/utils/matching/blood-type.ts:23 | The table lists, for each key, the types that key can receive from. The lookup reads the row of the donor, so the donor is accepted when the recipient could donate to it. | donor `AB+`, recipient `O-`: accepted, although `AB+` cells may not go to an `O-` recipient. Donor `O+`, recipient `A+`: refused, although allowed. | compatible iff the donor may give to the recipient under the standard ABO/Rh rule, i.e. look up the recipient's row | medium, not executed | BloodTypeTable.AsWrittenCounterexample | BloodTypeTable.IsBloodTypeCompatibleCorrected |
