# Referee report generator: overlays, rendering, validation and team search

A model of the core of `ref-tool-node`. The tool fills one of four fixed PDF templates, one per youth age
category (U9, U11, U13, U15), with a match-report record. It writes one text overlay per field at fixed
coordinates and on fixed pages.

The model covers these parts of the tool:

- **Layout tables:** the per-category overlay tables of the server (`PDFService`) and of the browser copy
  (`pdf-client.ts`).
- **Date rendering:** the `DD.MM.YYYY` form for U15 and the `DD     MM` form for the other categories.
- **Template paths and file names:** how each template is located and how the downloaded file is named.
- **Grouping by page:** `groupOverlaysByPage`.
- **The draw loops:** they skip pages the template lacks and overlays whose trimmed text is empty.
- **Request validation:** `validateFormData` of the report API route.
- **Team search:** the club list and `filterTeams`.
- **The `TeamAutocomplete` input:** its suggestion list, its highlight and its open/closed state.

Modules:

- `Strings`: the JavaScript string built-ins the code relies on, with their JavaScript meaning.
- `Report`: the record, the overlay, the category, and the model's reading of how `new Date("YYYY-MM-DD")`
  reads a match date.
- `Rendering`:
  - grouping by page, as a method with a loop over the overlays;
  - the draw plan, as a specification function;
  - the loaded document, as a class whose draw log grows.
- `PdfService` and `PdfClient`: the two generators. Each has its own tables, formatter, file name and draw
  loops, and there are lemmas stating that the two agree.
- `Validation`: the route's validator, as a pure function over the JSON body.
- `Teams`: `TEAMS_LIST` and `filterTeams`.
- `Autocomplete`: the component's state as a class whose methods are its handlers and its suggestion effect.

Two places where the code and its own comments disagree; the model follows the code:

- **Year width:** the comment at `pdf-service.ts:143` asks for `DD.MM.YYYY`, a four-digit year; the code
  writes `${year}` unpadded, so year 999 renders as `999`. `FormatDateU15RoundTrip` is therefore stated for years
  from 1000 on.
- **Club list order:** the club list's header comment (`teams-data.ts:4`) calls it sorted alphabetically. It is not, and
  `TeamsListShape` shows the first out-of-order pair.

## Model

| member | source | states |
|---|---|---|
| Strings.TrimStart | server/app/api/generate-report/route.ts:49 | the result is a suffix of the input; everything cut off is whitespace, and the result does not start with whitespace |
| Strings.TrimEnd | server/app/api/generate-report/route.ts:49 | the result is a prefix of the input; everything cut off is whitespace, and the result does not end with whitespace |
| Strings.Trim | server/lib/teams-data.ts:115 | `trim()` is no longer than its input and neither starts nor ends with whitespace |
| Strings.TrimEmptyIffBlank | server/app/api/generate-report/route.ts:49 | `s.trim() === ''` holds exactly when every character of `s` is JavaScript whitespace |
| Strings.TrimIdempotent | server/lib/teams-data.ts:115 | trimming twice is trimming once |
| Strings.UpperWhitespace | server/lib/teams-data.ts:115 | upper-casing maps whitespace to whitespace and non-whitespace to non-whitespace |
| Strings.ToUpper | server/lib/teams-data.ts:115 | `toUpperCase` keeps the length and upper-cases character by character |
| Strings.ToLower | server/lib/pdf-service.ts:47 | `toLowerCase` keeps the length and lower-cases character by character |
| Strings.UpperSlice | server/lib/teams-data.ts:115 | upper-casing a slice is slicing the upper-cased string |
| Strings.UpperIdempotent | server/lib/teams-data.ts:115 | upper-casing twice is upper-casing once |
| Strings.TrimStartUpper | server/lib/teams-data.ts:115 | cutting leading whitespace commutes with upper-casing |
| Strings.TrimEndUpper | server/lib/teams-data.ts:115 | cutting trailing whitespace commutes with upper-casing |
| Strings.TrimUpperCommute | server/lib/teams-data.ts:115 | `toUpperCase().trim()` equals `trim().toUpperCase()` |
| Strings.Retain | server/lib/pdf-service.ts:222-224 | a global character-class `replace` with `''` never lengthens the string |
| Strings.RetainCount | server/lib/pdf-service.ts:222-224 | the result holds each kept character exactly as often as the input does, and no other character |
| Strings.RetainAppend | server/lib/pdf-service.ts:222-224 | the `replace` distributes over concatenation |
| Strings.RetainAll | server/lib/pdf-service.ts:222-224 | a string made only of kept characters is unchanged |
| Strings.PadStart | server/lib/pdf-service.ts:144-145 | `padStart(width, fill)` has length max(length, width), ends with the input and is filled in front |
| Strings.DigitChar | server/lib/pdf-service.ts:144 | a digit value 0..9 is written as an ASCII digit |
| Strings.NatToString | server/lib/pdf-service.ts:144-147 | a number's text is a non-empty run of ASCII digits |
| Strings.DecimalRoundTrip | server/lib/pdf-service.ts:144-147 | reading a number's text back gives the number |
| Strings.DecimalBelow | server/app/api/generate-report/route.ts:66 | k digits read as a number below 10^k |
| Strings.NatToStringLength | server/lib/pdf-service.ts:146-147 | a number from 10^(k-1) to 10^k - 1 is written with exactly k digits |
| Strings.TwoDigitText | server/lib/pdf-service.ts:144-145 | a number from 10 to 99 is written as its tens digit followed by its units digit |
| Strings.ThreeDigitText | server/lib/pdf-service.ts:146 | a number from 100 to 999 is written as its three digits |
| Strings.FourDigitText | server/lib/pdf-service.ts:146 | a number from 1000 to 9999 is written as its four digits |
| Strings.TwoDigitValue | server/lib/pdf-service.ts:140 | two digits read as tens times ten plus units |
| Strings.FourDigitValue | server/lib/pdf-service.ts:140 | four digits read as their positional value |
| Strings.PadTwoDigits | server/lib/pdf-service.ts:144-145 | a day or month below 100, padded to two places, is two digits that read back as it |
| Strings.Split | server/lib/pdf-service.ts:226 | splitting always yields at least one part |
| Strings.SplitAppend | server/lib/pdf-service.ts:226 | splitting a separator-free part followed by more text extends the first part only |
| Strings.JoinSeven | server/lib/pdf-service.ts:226 | seven parts joined with a separator are the parts with the separator between them |
| Strings.SplitJoin | server/lib/pdf-service.ts:226 | splitting separator-free parts joined with that separator gives back the parts |
| Report.ParseCategory | server/app/api/generate-report/route.ts:55-57 | a spelling names a category exactly when it is one of `U9`, `U11`, `U13`, `U15`, and the category it names is spelled that way |
| Report.ParseCategoryName | server/lib/pdf-service.ts:17 | spelling a category and reading it back gives the category |
| Report.ParseIsoDate | server/lib/pdf-service.ts:140 | models the reading of `new Date(dateString)` (no contract; see the lemmas ParseIsoDateSpec, ParsedDateValid, ParseIsoDateRollover) |
| Report.ComposeDay | server/lib/pdf-service.ts:140 | a day from 1 to 31 of a month from 1 to 12 becomes a real calendar day of the same year |
| Report.ComposeDaySpec | server/lib/pdf-service.ts:140 | a real day is kept as it is; a day past the month's end becomes that many days into the next month, at most its 3rd |
| Report.ParseIsoDateSpec | server/lib/pdf-service.ts:140 | in the model's reading of `new Date`, a string gives a valid date exactly when it has the `YYYY-MM-DD` shape with a month from 01 to 12 and a day from 01 to 31; the date is then its fields read as decimals, a day past the month's end rolled into the next month, with a year below 10000 |
| Report.ParsedDateValid | server/lib/pdf-service.ts:140 | an accepted date is a real calendar day with a year below 10000 |
| Report.DottedReadBack | server/lib/pdf-service.ts:147 | `DD.MM.YYYY` made of digits reads back as the date those digits spell |
| Report.SpacedReadBack | server/lib/pdf-service.ts:152 | `DD     MM` made of digits reads back as the day and month those digits spell |
| Report.IsoDateOfDigits | server/lib/pdf-service.ts:140 | a `YYYY-MM-DD` literal with a month from 01 to 12 and a day from 01 to 31 is read as the day its digits compose, rolled over if need be |
| Report.ParseIsoDateExamples | server/lib/tests/pdf-service.spec.ts:49-64 | the test suite's `2023-10-27` and `2023-05-01`, and `0999-10-27`, are read as those days |
| Report.ParseIsoDateRollover | server/lib/pdf-service.ts:140 | `2023-02-30` is read as 2 March 2023, and `2024-02-30` as 1 March 2024 |
| Report.FebruaryThirtieth | server/lib/pdf-service.ts:140 | 30 February of a year from 2020 to 2029 is read as day 30 minus February's length, in March |
| Report.LeapYearExamples | server/lib/pdf-service.ts:140 | 2023 is not a leap year and 2024 is |
| Report.Pad2OneDigit | server/lib/pdf-service.ts:144-145 | a one-digit day or month is padded to `0` followed by its digit |
| Rendering.Pages | server/lib/pdf-service.ts:205-216 | models the key order of the grouping map (no contract; see the lemma PagesSpec) |
| Rendering.OnPage | server/lib/pdf-service.ts:205-216 | one page's group has only overlays of that page taken from the input, and is no longer than the input |
| Rendering.Plan | server/lib/pdf-service.ts:176-195 | models what the nested draw loop draws (no contract; see the lemmas PlanExtend, PlanIsSelection, DrawsSelected) |
| Rendering.PagesSpec | server/lib/pdf-service.ts:205-216 | the map's keys are distinct and are exactly the pages some overlay is placed on |
| Rendering.OnPageOfUnusedPage | server/lib/pdf-service.ts:209-211 | a page no overlay is on has an empty group |
| Rendering.SinglePage | server/lib/pdf-service.ts:205-216 | overlays all on one page form a single group holding all of them |
| Rendering.SelectedCount | server/lib/pdf-service.ts:176-195 | the drawable overlays, selected in order, keep each drawable overlay's multiplicity and drop the others |
| Rendering.PlanExtend | server/lib/pdf-service.ts:176-195 | one more group visited extends the draw log by that group's non-blank overlays, or by nothing when the page is missing |
| Rendering.NonBlankExtend | server/lib/pdf-service.ts:184-194 | one more overlay of a group extends the log by it exactly when its trimmed text is not empty |
| Rendering.GroupOverlaysByPage | server/lib/pdf-service.ts:205-216 | the keys come in first-use order, the map has exactly those keys, and each key's group is the overlays of that page in input order; the same method models the client's copy at `pdf-client.ts:148-155` |
| Rendering.FlattenSnoc | server/lib/pdf-service.ts:208-213 | pushing one more overlay adds it to exactly one listed group, if its page is listed |
| Rendering.FlattenSnocLast | server/lib/pdf-service.ts:212 | an overlay on the last listed page joins that page's group |
| Rendering.FlattenSnocUnlisted | server/lib/pdf-service.ts:212 | an overlay on an unlisted page changes no listed group |
| Rendering.OnPageSnoc | server/lib/pdf-service.ts:212 | pushing an overlay extends its own page's group by it and leaves every other group unchanged |
| Rendering.GroupsPartition | server/lib/pdf-service.ts:205-216 | the groups together hold every input overlay exactly as often as the input does: grouping loses and duplicates nothing |
| Rendering.SelectedAppend | server/lib/pdf-service.ts:184-194 | selecting drawable overlays distributes over concatenation |
| Rendering.SelectedOfOnePage | server/lib/pdf-service.ts:177-194 | for one page's group, the per-group page test plus text test is the overall drawability test |
| Rendering.PlanIsSelection | server/lib/pdf-service.ts:176-195 | the nested draw loop draws the drawable overlays of the concatenated groups, in that order |
| Rendering.DrawsSelected | server/lib/pdf-service.ts:173-195 | the draw loop draws each overlay on an existing page with non-blank text as often as it occurs, and nothing else |
| Rendering.DrawnIff | server/lib/pdf-service.ts:177-185 | an overlay is drawn exactly when it is in the input, its page exists and its trimmed text is not empty |
| Rendering.DrawnFirstPageOnly | server/lib/pdf-service.ts:177-180 | when every overlay is on page 0 or on a missing page, exactly the non-blank page-0 overlays are drawn, and only if page 0 exists |
| Rendering.OnPageAppend | server/lib/pdf-service.ts:205-216 | a page's group of a concatenation is the concatenation of the groups |
| Rendering.OnPageOfOnePage | server/lib/pdf-service.ts:205-216 | overlays all on one page are that page's whole group and nothing on any other page |
| Rendering.OnPageFlatten | server/lib/pdf-service.ts:176 | the page-`p` overlays of the concatenated groups are the group of `p` when `p` is a key, else none |
| Rendering.OnPageSelected | server/lib/pdf-service.ts:184-185 | taking one page's overlays commutes with selecting drawable ones |
| Rendering.DrawOrderOnPage | server/lib/pdf-service.ts:176-195 | on each page the overlays are drawn in their original relative order |
| Rendering.PdfDocument.DrawText | server/lib/pdf-service.ts:186-192 | drawing on an existing page appends exactly that text run to the document's log |
| PdfClient.FormatDate | server/lib/pdf-client.ts:135-146 | models the client's `formatDate` (no contract; see the lemma PdfService.FormatDateAgrees) |
| PdfClient.GetTemplatePath | server/lib/pdf-client.ts:82-85 | models the client's `getTemplatePath` (no contract; see the lemmas TemplatePaths, PdfService.TemplatePathAgrees) |
| PdfClient.GenerateFilename | server/lib/pdf-client.ts:157-162 | models the client's `generateFilename` (no contract; see the lemma PdfService.FilenameAgrees) |
| PdfClient.GetOverlays | server/lib/pdf-client.ts:87-133 | models the client's `getOverlays` (no contract; see the method PdfService.GetOverlays and the lemmas PdfService.TablesAgree, PdfService.U15ClientLayout) |
| PdfClient.Layout | server/lib/pdf-client.ts:87-133 | models the client's literal tables (no contract; see the lemmas PdfService.TablesAgree, PdfService.U15ClientLayout) |
| PdfClient.TemplatePaths | server/lib/pdf-client.ts:82-85 | the four categories' template URLs are `/reports/referee_template_u9.pdf` and so on |
| PdfClient.GenerateReportClient | server/lib/pdf-client.ts:32-80 | the draw log grows by exactly the draw plan of the record's overlays, and the returned name is the record's file name |
| PdfClient.DrawOverlays | server/lib/pdf-client.ts:55-71 | the outer loop over the groups appends exactly the draw plan: missing pages skipped, groups in key order |
| PdfClient.DrawPage | server/lib/pdf-client.ts:61-70 | the inner loop appends exactly the page's overlays with non-blank text, in order |
| PdfService.GetTemplatePath | server/lib/pdf-service.ts:46-49 | models `getTemplatePath` (no contract; see the lemmas TemplatePaths, TemplatePathsDistinct, TemplatePathAgrees) |
| PdfService.U9Overlays | server/lib/pdf-service.ts:80-88 | models `getU9Overlays` (no contract; see the lemmas U9Layout, TablesAgree) |
| PdfService.U9Table | server/lib/pdf-service.ts:80-88 | models the U9 table (no contract; see the lemmas U9Layout, TablesAgree) |
| PdfService.U11U13Overlays | server/lib/pdf-service.ts:93-103 | models `getU11U13Overlays` (no contract; see the lemmas U11U13Layout, AbsentRefereeTwoNotDrawn, TablesAgree) |
| PdfService.U11U13Table | server/lib/pdf-service.ts:93-103 | models the U11/U13 table (no contract; see the lemmas U11U13Layout, TablesAgree) |
| PdfService.U15Overlays | server/lib/pdf-service.ts:108-134 | models `getU15Overlays` (no contract; see the lemmas U15Layout, TablesAgree) |
| PdfService.U15Table | server/lib/pdf-service.ts:108-134 | models the U15 table and its four pushed entries (no contract; see the lemmas U15Layout, TablesAgree) |
| PdfService.FormatDate | server/lib/pdf-service.ts:139-154 | models `formatDate` (no contract; see the lemmas FormatDateFields, FormatDateInvalid, FormatDateOnlyU15Differs, FormatDateU15RoundTrip, FormatDateDayMonthRoundTrip, FormatDateRollover) |
| PdfService.CleanTeam | server/lib/pdf-service.ts:223-224 | models the team-name `replace` (no contract; see the lemmas CleanTeamAlnum, CleanTeamExamples) |
| PdfService.CompactDate | server/lib/pdf-service.ts:222 | models the match-date `replace` (no contract; see the lemma Validation.CompactIsoDate) |
| PdfService.GenerateFilename | server/lib/pdf-service.ts:221-227 | models `generateFilename` (no contract; see the lemmas FilenameOfCleanNames, FilenameJoin, FilenameFields, FilenameAgrees) |
| PdfService.GetOverlays | server/lib/pdf-service.ts:54-75 | the server's overlays are the client's overlays for every record, entry for entry, and their number is 5, 7 or 17 by category |
| PdfService.GenerateReport | server/lib/pdf-service.ts:36-41 | the template path is the category's template, and the draw log grows by exactly the draw plan of the record's overlays |
| PdfService.ApplyOverlays | server/lib/pdf-service.ts:159-200 | the loop over the groups appends exactly the draw plan: missing pages skipped, groups in key order |
| PdfService.DrawPageOverlays | server/lib/pdf-service.ts:184-194 | the inner loop appends exactly the page's overlays with non-blank text, in order |
| PdfService.FormatDateAgrees | server/lib/pdf-client.ts:135-146 | the client and server date formatters agree on every input |
| PdfService.TablesAgree | server/lib/pdf-client.ts:87-133 | each category's server table is the client's table for that category |
| PdfService.FilenameAgrees | server/lib/pdf-client.ts:157-162 | the client and server file names agree on every record |
| PdfService.TemplatePathAgrees | server/lib/pdf-service.ts:46-49 | the server's template path is the working directory, `/public`, then the client's URL |
| PdfService.U9Layout | server/lib/pdf-service.ts:80-88 | U9 has five overlays on page 0 at its five positions in order; the second is the date and the third the match line |
| PdfService.U11U13Layout | server/lib/pdf-service.ts:93-103 | U11/U13 have seven overlays on page 0 at their positions; an absent second referee leaves an empty overlay at (101, 662) |
| PdfService.U15Layout | server/lib/pdf-service.ts:108-134 | U15 has seventeen overlays on pages 0, 4, 5 and 6; only the repeated date and the two teams leave page 0; the four pushed `Ilfov` entries come last |
| PdfService.FormatDateFields | server/lib/pdf-service.ts:139-154 | an accepted date renders as padded day, dot, padded month, dot, unpadded year for U15, and as padded day, five spaces, padded month otherwise |
| PdfService.FormatDateOnlyU15Differs | server/lib/pdf-service.ts:148-153 | every category other than U15 renders a date the same way |
| PdfService.FormatDateInvalid | server/lib/pdf-service.ts:140-152 | a date `new Date` rejects renders as `NaN.NaN.NaN` for U15 and as `NaN     NaN` otherwise |
| PdfService.FormatDateOneDigitFields | server/lib/pdf-service.ts:148-153 | outside U15, a valid date whose day and month are one digit each renders as `0`, the day, five spaces, `0`, the month |
| PdfService.FormatDateRollover | server/lib/pdf-service.ts:139-154 | `2023-02-30` renders for U9 as `02     03`, the day it rolls over to |
| PdfService.Pad2Digits | server/lib/pdf-service.ts:144-145 | a padded day or month is two digits that read back as it |
| PdfService.YearDigits | server/lib/pdf-service.ts:146 | a year from 1000 to 9999 is written with four digits that read back as it |
| PdfService.DottedOfDate | server/lib/pdf-service.ts:142-147 | a real day with a four-digit year, written `DD.MM.YYYY`, reads back as that day |
| PdfService.SpacedOfDate | server/lib/pdf-service.ts:148-153 | a real day written `DD     MM` reads back as its day and month |
| PdfService.FormatDateU15RoundTrip | server/lib/pdf-service.ts:139-147 | the U15 rendering of an accepted date with a year from 1000 reads back as the same date |
| PdfService.FormatDateDayMonthRoundTrip | server/lib/pdf-service.ts:148-153 | the non-U15 rendering of an accepted date reads back as its day and month |
| PdfService.CleanTeamExamples | server/lib/tests/pdf-service.spec.ts:30-44 | `Team A!` and `Team@B` are cleaned to `TeamA` and `TeamB` |
| PdfService.FilenameExamples | server/lib/tests/pdf-service.spec.ts:30-44 | a match of `Team A!` and `Team@B` is filed as `referee_report_<category>_TeamA_vs_TeamB_<date>.pdf` |
| PdfService.FilenameOfCleanNames | server/lib/pdf-service.ts:221-227 | the file name is the prefix, the category, the cleaned names around `_vs_`, then the compacted date and `.pdf` |
| PdfService.CleanTeamAlnum | server/lib/pdf-service.ts:223-224 | a cleaned team name holds only ASCII letters and digits, and cleaning it again changes nothing |
| PdfService.FilenamePieces | server/lib/pdf-service.ts:226 | the file name's template is its literal pieces separated by `_` |
| PdfService.FilenameJoin | server/lib/pdf-service.ts:221-227 | the file name is its seven parts joined with `_` |
| PdfService.FilenamePartsSeparated | server/lib/pdf-service.ts:222-224 | no part of the file name holds `_`, provided the match date has none |
| PdfService.FilenameFields | server/lib/pdf-service.ts:221-227 | split on `_`, the file name gives back the category, both cleaned teams and the compacted date |
| PdfService.TemplatePaths | server/lib/tests/pdf-service.spec.ts:68-84 | the four template paths are the working directory, `public/reports` and `referee_template_u9.pdf` and so on |
| PdfService.TemplatePathsDistinct | server/lib/pdf-service.ts:46-49 | different categories use different templates |
| PdfService.AbsentRefereeTwoNotDrawn | server/lib/pdf-service.ts:96 | an absent U11/U13 second referee yields an empty overlay that is never drawn |
| PdfService.U15ClientLayout | server/lib/pdf-client.ts:108-131 | the client's U15 overlays are seventeen on pages 0, 4, 5 and 6, with the teams at positions 11 and 12 |
| PdfService.U15ShortTemplate | server/lib/pdf-client.ts:58-62 | on a template of at most four pages a U15 sheet still renders: exactly its non-blank page-0 overlays |
| PdfService.U15TeamPages | server/lib/pdf-client.ts:121-122 | on a seven-page template the teams are drawn on pages 5 and 6 exactly when their names are not blank |
| Validation.Missing | server/app/api/generate-report/route.ts:49 | models the blank-field test (no contract; see the lemmas MissingFieldReported, ValidateAcceptsIffAcceptable) |
| Validation.ValidateFormData | server/app/api/generate-report/route.ts:44-78 | models `validateFormData` (no contract; see the lemmas ValidateAcceptsIffAcceptable, MissingFieldReported, UnknownCategoryReported, Referee2Reported, DateShapeReported, TimeShapeReported) |
| Validation.FirstMissing | server/app/api/generate-report/route.ts:48-52 | no field is reported exactly when none is missing; a reported field is missing and every field before it is present |
| Validation.RequiredPresent | server/app/api/generate-report/route.ts:45-52 | once no required field is missing, the date, time and category are present |
| Validation.ValidateAcceptsIffAcceptable | server/app/api/generate-report/route.ts:44-78 | the validator returns `null` exactly when every required field is present and not blank, the category is known, U11/U13 have a second referee, and date and time have the `YYYY-MM-DD` and `HH:MM` shapes |
| Validation.MissingFieldReported | server/app/api/generate-report/route.ts:48-52 | a missing field is reported by name exactly when every field checked before it is present |
| Validation.UnknownCategoryReported | server/app/api/generate-report/route.ts:55-57 | with every required field present, an unknown category is the failure reported |
| Validation.Referee2Reported | server/app/api/generate-report/route.ts:60-63 | with every required field present, a U11 or U13 request without a second referee is answered with the `referee_name_2` message |
| Validation.DateShapeReported | server/app/api/generate-report/route.ts:66-69 | once the fields, the category and the second referee pass, a match date not of the `YYYY-MM-DD` shape is answered with the date message |
| Validation.TimeShapeReported | server/app/api/generate-report/route.ts:72-75 | once every earlier check passes, a starting hour not of the `HH:MM` shape is answered with the time message |
| Validation.Referee2IgnoredOutsideU11U13 | server/app/api/generate-report/route.ts:60-63 | for U9 and U15 the answer does not depend on `referee_name_2`, whether it is set, changed or removed |
| Validation.AgreeBesidesReferee2 | server/app/api/generate-report/route.ts:44-78 | two U9/U15 requests that differ at most in `referee_name_2` are judged alike |
| Validation.FirstMissingSameFields | server/app/api/generate-report/route.ts:48-52 | requests missing the same fields report the same first missing field |
| Validation.AcceptedCategoryParses | server/app/api/generate-report/route.ts:55-57 | an accepted request names one of the four categories |
| Validation.AcceptedDateCompacts | server/app/api/generate-report/route.ts:66-69 | an accepted match date has the ISO shape, and the file name carries its eight digits |
| Validation.CompactIsoDate | server/lib/pdf-service.ts:222 | compacting `YYYY-MM-DD` drops the two dashes and leaves eight digits |
| Validation.ShapeChecksOnly | server/app/api/generate-report/route.ts:66-75 | the checks test shape only: `99:99` passes as a time, and `2023-13-45` passes as a date that `new Date` rejects |
| Teams.TeamsList | server/lib/teams-data.ts:7-103 | models `TEAMS_LIST` (a constant; see the lemma TeamsListShape) |
| Teams.NormalizedQuery | server/lib/teams-data.ts:115 | models `query.toUpperCase().trim()` (no contract; see the lemmas NormalizedEmptyIffBlank, FilterTeamsNormalized) |
| Teams.Search | server/lib/teams-data.ts:110-120 | models `filterTeams` over a given list (no contract; see the lemmas SearchMembers, MatchingSubsequence) |
| Teams.FilterTeams | server/lib/teams-data.ts:110-120 | models `filterTeams` (no contract; see the lemmas FilterTeamsMembers, FilterTeamsSubsequence, FilterTeamsBlank) |
| Teams.Matching | server/lib/teams-data.ts:117-119 | `filter` never returns more teams than it is given |
| Teams.SubsequenceOfSelf | server/lib/teams-data.ts:111-113 | the whole list is itself in list order |
| Teams.IncludesEmpty | server/lib/teams-data.ts:118 | every string includes the empty string |
| Teams.BlankUpper | server/lib/teams-data.ts:115 | upper-casing keeps a query blank or non-blank |
| Teams.NormalizedEmptyIffBlank | server/lib/teams-data.ts:111-115 | a query normalizes to the empty string exactly when it is blank |
| Teams.MatchingMembers | server/lib/teams-data.ts:117-119 | a team is kept exactly when its upper-cased name includes the needle |
| Teams.MatchingSubsequence | server/lib/teams-data.ts:117-119 | the kept teams keep the list's order |
| Teams.FilterTeamsBlank | server/lib/teams-data.ts:111-113 | an empty or all-whitespace query returns the whole list |
| Teams.SearchMembers | server/lib/teams-data.ts:110-120 | a listed team is found exactly when its upper-cased name includes the upper-cased, trimmed query |
| Teams.FilterTeamsMembers | server/lib/teams-data.ts:110-120 | `filterTeams` is sound and complete for every query: a club is returned exactly when it is listed and matches |
| Teams.FilterTeamsSubsequence | server/lib/teams-data.ts:110-120 | the result is the list with some clubs left out, in list order, and no longer than it |
| Teams.FilterTeamsNormalized | server/lib/teams-data.ts:115 | a query and its upper-cased, trimmed form find the same clubs |
| Teams.TeamsListShape | server/lib/teams-data.ts:7-103 | the list has 74 entries, and its third and fourth entries are out of alphabetical order |
| Autocomplete.Suggestions | server/app/components/TeamAutocomplete.tsx:30-37 | models the suggestion effect's list (no contract; see the lemma SuggestionsSpec) |
| Autocomplete.SuggestionsSpec | server/app/components/TeamAutocomplete.tsx:30-37 | an empty value has no suggestions; otherwise they are the first min(10, n) of the n search results, each a listed club that matches |
| Autocomplete.TeamAutocomplete.constructor | server/app/components/TeamAutocomplete.tsx:24-37 | a mounted input is closed, highlights nothing and shows the suggestions of its value |
| Autocomplete.TeamAutocomplete.SyncSuggestions | server/app/components/TeamAutocomplete.tsx:30-37 | a new value recomputes the suggestions and changes nothing else |
| Autocomplete.TeamAutocomplete.InputChange | server/app/components/TeamAutocomplete.tsx:39-43 | typing passes the text on, opens the dropdown and clears the highlight |
| Autocomplete.TeamAutocomplete.SelectTeam | server/app/components/TeamAutocomplete.tsx:45-57 | selecting passes the team on, closes the dropdown and clears the highlight |
| Autocomplete.TeamAutocomplete.KeyDown | server/app/components/TeamAutocomplete.tsx:59-89 | case by case: a closed or empty dropdown only opens on ArrowDown; ArrowDown stops at the last suggestion; ArrowUp goes from the first to none; Enter selects an in-range highlight; Escape closes; other keys do nothing; an in-range highlight stays in range |
| Autocomplete.TeamAutocomplete.Focus | server/app/components/TeamAutocomplete.tsx:99-103 | focus opens the dropdown exactly when there is a value with suggestions, and otherwise leaves it as it was |
| Autocomplete.FocusAfterMount | server/app/components/TeamAutocomplete.tsx:30-37 | a freshly mounted input opens on focus exactly when its value is non-empty and matches a club |

## Left out

- **File and network I/O.** Reading the template and the font, fetching them through the browser cache,
  and saving the PDF are left out. The loaded template is a `PdfDocument` given by the caller, with its
  page count and a log of drawn text.
- **The PDF library.** Font embedding, glyph encoding, drawing options and PDF bytes are left out; a drawn
  text run is recorded as its overlay. The font size of 13 and the black colour are constants the model
  does not carry.
- **`console.warn`.** The message logged for a skipped page is left out; the skip itself is modelled.
- **`path.join` and the working directory.** `path.join(process.cwd(), ...)` is modelled as the
  working-directory text followed by `/public/reports/...`. Path normalisation is not modelled.
- **Time zone in `new Date`.** `new Date("YYYY-MM-DD")` is read at face value (UTC). The time-zone shift
  that `getDate()` can apply is left out.
- **Overflowing days.** The model follows the V8 engine of Node and Chromium: a day from 29 to 31 that
  the month lacks rolls over into the next month, so `2023-02-30` is 2 March and renders as `02     03`.
  Engines that reject such a date (Firefox's gives an invalid date) are not modelled; the client may run
  in any browser.
- **Other forms `new Date` accepts.** Strings such as `2023-10-27T10:00`, `+002023-10-27` or `10/27/2023`
  are read as invalid dates. On the server path the validator lets only the `YYYY-MM-DD` shape through.
- **Case mapping.** `toUpperCase` and `toLowerCase` are modelled on ASCII letters only; Unicode case
  mapping is not modelled.
- **The route handlers.** The `POST` and `GET` handlers and the response headers and status codes are
  left out. The validator is modelled on a JSON body whose fields are all strings.
- **Blur and scrolling in `TeamAutocomplete`.** The delayed close of `handleBlur` (a 200 ms `setTimeout`),
  the `scrollIntoView` effect and the rendering of the dropdown are left out. React's batching of state
  updates is modelled as the handlers' sequential updates to the class's fields.
- **The form page.** `page.tsx` and the remaining components are not part of this model.
- PdfService.U15Layout: proves the set of pages the U15 overlays use, not the key order that grouping then
  produces (0, 4, 5, 6).
- PdfService.FilenameExamples: covers the test suite's file names up to the match date. The date part is
  covered by `Validation.CompactIsoDate`.
- Report.ParseIsoDateExamples: the test suite's literal renderings such as `27.10.2023` are not stated as
  literals. `PdfService.FormatDateFields` and the two round-trip lemmas cover them field by field.
- PdfService.FormatDateU15RoundTrip: needs a year of at least 1000, because the code leaves the year
  unpadded.
