/**
 * The server-side report generator (`PDFService` in `lib/pdf-service.ts`): it picks the
 * template of the record's age category, lays the record out as text overlays, and draws the
 * overlays onto the loaded template. The template's location below the working directory is
 * kept; reading it, loading it and saving the result are not modelled: the loaded template is
 * a `PdfDocument` handed in by the caller.
 */
module PdfService {
  import opened Wrappers
  import opened Strings
  import opened Report
  import opened Rendering
  import PdfClient

  /**
   * `getTemplatePath`: `path.join(process.cwd(), 'public', 'reports', file)`, with the working
   * directory `root` taken as an opaque prefix.
   */
  function GetTemplatePath(root: string, ageCategory: string): string {
    root + "/public" + "/reports/referee_template_" + ToLower(ageCategory) + ".pdf"
  }

  /** `getU9Overlays`: the U9 table with the date formatted as `U9`. */
  function U9Overlays(formData: FormData): seq<Overlay> {
    U9Table(formData, FormatDate(formData.matchDate, "U9"))
  }

  /** The five page-0 entries of the U9 sheet, `date` being the formatted match date. */
  function U9Table(formData: FormData, date: string): seq<Overlay> {
    [ Overlay(formData.refereeName1, 101, 687, 0),
      Overlay(date, 337, 686, 0),
      Overlay(formData.team1 + " - " + formData.team2, 101, 712, 0),
      Overlay(formData.team1, 101, 636, 0),
      Overlay(formData.team2, 355, 636, 0) ]
  }

  /** `getU11U13Overlays`: the U11/U13 table with the date formatted with the record's category. */
  function U11U13Overlays(formData: FormData): seq<Overlay> {
    U11U13Table(formData, FormatDate(formData.matchDate, CategoryName(formData.ageCategory)))
  }

  /** The seven page-0 entries of the U11 and U13 sheets, `date` being the formatted match date. */
  function U11U13Table(formData: FormData, date: string): seq<Overlay> {
    [ Overlay(formData.refereeName1, 101, 687, 0),
      Overlay(OrEmpty(formData.refereeName2), 101, 662, 0),
      Overlay(date, 346, 686, 0),
      Overlay(formData.startingHour, 335, 660, 0),
      Overlay(formData.team1 + " - " + formData.team2, 101, 712, 0),
      Overlay(formData.team1, 101, 636, 0),
      Overlay(formData.team2, 355, 636, 0) ]
  }

  /** `getU15Overlays`: the U15 table with the date formatted as `U15`. */
  function U15Overlays(formData: FormData): seq<Overlay> {
    U15Table(formData, FormatDate(formData.matchDate, "U15"))
  }

  /**
   * The U15 sheet: thirteen entries taken from the record (ten on page 0, the date again on
   * page 4, the teams on pages 5 and 6), then four fixed "Ilfov" entries pushed onto page 0.
   */
  function U15Table(formData: FormData, date: string): seq<Overlay> {
    var overlays :=
      [ Overlay(formData.refereeName1, 163, 353, 0),
        Overlay(OrEmpty(formData.assistantReferee1), 163, 338, 0),
        Overlay(OrEmpty(formData.assistantReferee2), 163, 321, 0),
        Overlay(OrEmpty(formData.fourthOfficial), 163, 305, 0),
        Overlay(date, 390, 425, 0),
        Overlay(formData.startingHour, 510, 425, 0),
        Overlay(formData.team1 + " - " + formData.team2, 110, 515, 0),
        Overlay(OrEmpty(formData.competition), 110, 453, 0),
        Overlay(OrEmpty(formData.stadiumName), 150, 399, 0),
        Overlay(OrEmpty(formData.stadiumLocality), 163, 426, 0),
        Overlay(date, 90, 78, 4),
        Overlay(formData.team1, 150, 783, 5),
        Overlay(formData.team2, 160, 783, 6) ];
    overlays + [ Overlay("Ilfov", 490, 353, 0),
                 Overlay("Ilfov", 490, 337, 0),
                 Overlay("Ilfov", 490, 322, 0),
                 Overlay("Ilfov", 490, 305, 0) ]
  }

  /** The number of overlays each category's table has. */
  function LayoutSize(c: AgeCategory): nat {
    match c
    case U9 => 5
    case U11 | U13 => 7
    case U15 => 17
  }

  /**
   * `getOverlays`: pushes the table of the record's category onto an empty list. The result is
   * the client's `getOverlays` for every record, entry for entry.
   */
  method GetOverlays(formData: FormData) returns (overlays: seq<Overlay>)
    ensures overlays == PdfClient.GetOverlays(formData)
    ensures |overlays| == LayoutSize(formData.ageCategory)
  {
    var category := CategoryName(formData.ageCategory);
    FormatDateAgrees(formData.matchDate, category);
    TablesAgree(formData, FormatDate(formData.matchDate, category));
    overlays := [];
    match formData.ageCategory
    case U9 =>
      overlays := overlays + U9Overlays(formData);
    case U11 | U13 =>
      overlays := overlays + U11U13Overlays(formData);
    case U15 =>
      overlays := overlays + U15Overlays(formData);
  }

  /** `formatDate`: `DD.MM.YYYY` when the category is `U15`, otherwise `DD`, five spaces, `MM`. */
  function FormatDate(dateString: string, ageCategory: string): string {
    var date := ParseIsoDate(dateString);
    if ageCategory == "U15" then
      Pad2(DayOf(date)) + "." + Pad2(MonthOf(date)) + "." + NumberText(YearOf(date))
    else
      Pad2(DayOf(date)) + "     " + Pad2(MonthOf(date))
  }

  /** The team name as the file name carries it: `replace(/[^a-zA-Z0-9]/g, '')`. */
  function CleanTeam(team: string): string {
    Retain(team, IsAsciiAlnum)
  }

  /** The match date as the file name carries it: `replace(/[-\/]/g, '')`. */
  function CompactDate(date: string): string {
    Retain(date, KeptInDate)
  }

  /** `generateFilename`. */
  function GenerateFilename(formData: FormData): string {
    var dateStr := CompactDate(formData.matchDate);
    var team1Clean := CleanTeam(formData.team1);
    var team2Clean := CleanTeam(formData.team2);
    "referee_report_" + CategoryName(formData.ageCategory) + "_" + team1Clean + "_vs_" + team2Clean
      + "_" + dateStr + ".pdf"
  }

  /**
   * `generateReport`: lays the record out and draws it onto the loaded template of its
   * category, whose path is returned. The draw log grows by the plan of the record's overlays.
   */
  method GenerateReport(root: string, pdfDoc: PdfDocument, formData: FormData) returns (templatePath: string)
    modifies pdfDoc
    ensures templatePath == GetTemplatePath(root, CategoryName(formData.ageCategory))
    ensures pdfDoc.drawn == old(pdfDoc.drawn)
      + Plan(Pages(PdfClient.GetOverlays(formData)), PdfClient.GetOverlays(formData), pdfDoc.pageCount)
  {
    templatePath := GetTemplatePath(root, CategoryName(formData.ageCategory));
    var overlays := GetOverlays(formData);
    ApplyOverlays(pdfDoc, overlays);
  }

  /**
   * The draw loop of `applyOverlays`: groups the overlays by page, visits the groups in key
   * order, skips (with a warning) a page the template lacks, and draws the others.
   */
  method ApplyOverlays(pdfDoc: PdfDocument, overlays: seq<Overlay>)
    modifies pdfDoc
    ensures pdfDoc.drawn == old(pdfDoc.drawn) + Plan(Pages(overlays), overlays, pdfDoc.pageCount)
  {
    var overlaysByPage := GroupOverlaysByPage(overlays);
    ghost var before := pdfDoc.drawn;
    for k := 0 to |overlaysByPage.order|
      invariant pdfDoc.drawn == before + Plan(overlaysByPage.order[..k], overlays, pdfDoc.pageCount)
    {
      var pageIndex: nat := overlaysByPage.order[k];
      assert pageIndex in overlaysByPage.groups;
      var pageOverlays := overlaysByPage.groups[pageIndex];
      PlanExtend(before, overlaysByPage.order, k, overlays, pdfDoc.pageCount);
      if pageIndex >= pdfDoc.pageCount {
        continue;
      }
      DrawPageOverlays(pdfDoc, pageIndex, pageOverlays);
    }
    assert overlaysByPage.order[..|overlaysByPage.order|] == overlaysByPage.order;
  }

  /** The inner loop of `applyOverlays`: one page's overlays in order, drawing only non-blank text. */
  method DrawPageOverlays(pdfDoc: PdfDocument, pageIndex: nat, pageOverlays: seq<Overlay>)
    requires pageIndex < pdfDoc.pageCount
    requires forall o :: o in pageOverlays ==> o.page == pageIndex
    modifies pdfDoc
    ensures pdfDoc.drawn == old(pdfDoc.drawn) + NonBlank(pageOverlays)
  {
    ghost var before := pdfDoc.drawn;
    for j := 0 to |pageOverlays|
      invariant pdfDoc.drawn == before + NonBlank(pageOverlays[..j])
    {
      var overlay := pageOverlays[j];
      NonBlankExtend(before, pageOverlays, j);
      if !IsBlank(overlay.text) {
        assert overlay in pageOverlays;
        pdfDoc.DrawText(pageIndex, overlay.text, overlay.x, overlay.y);
      }
    }
    assert pageOverlays[..|pageOverlays|] == pageOverlays;
  }

  // ---------------------------------------------------------------------------------------
  // Agreement with the client copy

  /** The two date formatters agree on every date and category. */
  lemma FormatDateAgrees(dateString: string, ageCategory: string)
    ensures FormatDate(dateString, ageCategory) == PdfClient.FormatDate(dateString, ageCategory)
  {
  }

  /** With the same date text, each category's table is the client's table for that category. */
  lemma TablesAgree(formData: FormData, date: string)
    ensures formData.ageCategory == U9 ==> U9Table(formData, date) == PdfClient.Layout(formData, date)
    ensures formData.ageCategory in {U11, U13} ==> U11U13Table(formData, date) == PdfClient.Layout(formData, date)
    ensures formData.ageCategory == U15 ==> U15Table(formData, date) == PdfClient.Layout(formData, date)
  {
  }

  /** The two file-name functions agree on every record. */
  lemma FilenameAgrees(formData: FormData)
    ensures GenerateFilename(formData) == PdfClient.GenerateFilename(formData)
  {
  }

  /** The server's template path is the working directory, `/public`, then the client's URL. */
  lemma TemplatePathAgrees(root: string, ageCategory: string)
    ensures GetTemplatePath(root, ageCategory) == root + "/public" + PdfClient.GetTemplatePath(ageCategory)
  {
    var lower := ToLower(ageCategory);
    assert root + "/public" + "/reports/referee_template_" + lower + ".pdf" ==
      root + "/public" + ("/reports/referee_template_" + lower + ".pdf");
  }

  // ---------------------------------------------------------------------------------------
  // Layout tables

  /** Where the U9 sheet's five entries go, in table order. */
  const U9Positions: seq<(int, int)> := [(101, 687), (337, 686), (101, 712), (101, 636), (355, 636)]

  /** Where the U11/U13 sheet's seven entries go, in table order. */
  const U11U13Positions: seq<(int, int)> :=
    [(101, 687), (101, 662), (346, 686), (335, 660), (101, 712), (101, 636), (355, 636)]

  /**
   * U9: exactly five overlays, all on page 0, at the sheet's five positions in order; the
   * second is the formatted date and the third the match line.
   */
  lemma U9Layout(formData: FormData, date: string)
    ensures |U9Table(formData, date)| == 5
    ensures forall i :: 0 <= i < 5 ==> U9Table(formData, date)[i].page == 0
    ensures forall i :: 0 <= i < 5 ==> (U9Table(formData, date)[i].x, U9Table(formData, date)[i].y) == U9Positions[i]
    ensures U9Table(formData, date)[1].text == date && U9Table(formData, date)[2].text == TeamPair(formData)
  {
  }

  /**
   * U11 and U13: exactly seven overlays, all on page 0, at the sheet's positions in order; an
   * absent second referee still has its overlay at (101, 662), with empty text.
   */
  lemma U11U13Layout(formData: FormData, date: string)
    ensures |U11U13Table(formData, date)| == 7
    ensures forall i :: 0 <= i < 7 ==> U11U13Table(formData, date)[i].page == 0
    ensures forall i :: 0 <= i < 7 ==>
      (U11U13Table(formData, date)[i].x, U11U13Table(formData, date)[i].y) == U11U13Positions[i]
    ensures U11U13Table(formData, date)[2].text == date && U11U13Table(formData, date)[4].text == TeamPair(formData)
    ensures formData.refereeName2.None? ==> U11U13Table(formData, date)[1] == Overlay("", 101, 662, 0)
  {
  }

  /**
   * U15: exactly seventeen overlays on the pages 0, 4, 5 and 6. Only three leave page 0: the
   * repeated date on page 4 and the two teams on pages 5 and 6. The last four are the fixed
   * "Ilfov" texts at x = 490.
   */
  lemma U15Layout(formData: FormData, date: string)
    ensures |U15Table(formData, date)| == 17
    ensures forall i :: 0 <= i < 17 ==> U15Table(formData, date)[i].page in {0, 4, 5, 6}
    ensures forall i :: 0 <= i < 17 && i != 10 && i != 11 && i != 12 ==> U15Table(formData, date)[i].page == 0
    ensures U15Table(formData, date)[10] == Overlay(date, 90, 78, 4)
    ensures U15Table(formData, date)[11] == Overlay(formData.team1, 150, 783, 5)
    ensures U15Table(formData, date)[12] == Overlay(formData.team2, 160, 783, 6)
    ensures U15Table(formData, date)[4].text == date && U15Table(formData, date)[6].text == TeamPair(formData)
    ensures U15Table(formData, date)[13..] ==
      [Overlay("Ilfov", 490, 353, 0), Overlay("Ilfov", 490, 337, 0), Overlay("Ilfov", 490, 322, 0), Overlay("Ilfov", 490, 305, 0)]
  {
  }

  // ---------------------------------------------------------------------------------------
  // Dates

  /** How a date the parser accepts is rendered, field by field. */
  lemma FormatDateFields(dateString: string, ageCategory: string)
    requires ParseIsoDate(dateString).Some?
    ensures var d := ParseIsoDate(dateString).value;
      FormatDate(dateString, ageCategory) == if ageCategory == "U15"
        then Pad2(Some(d.day)) + "." + Pad2(Some(d.month)) + "." + NatToString(d.year)
        else Pad2(Some(d.day)) + "     " + Pad2(Some(d.month))
  {
  }

  /** For categories other than U15 the rendering does not depend on which category it is. */
  lemma FormatDateOnlyU15Differs(dateString: string, ageCategory: string)
    requires ageCategory != "U15"
    ensures FormatDate(dateString, ageCategory) == FormatDate(dateString, "U9")
  {
  }

  /** A date the parser rejects renders as JavaScript renders an invalid date: NaN fields. */
  lemma FormatDateInvalid(dateString: string, ageCategory: string)
    requires ParseIsoDate(dateString).None?
    ensures FormatDate(dateString, ageCategory) == if ageCategory == "U15" then "NaN.NaN.NaN" else "NaN     NaN"
  {
    assert Pad2(None) == "NaN";
  }

  /** Outside U15, a date whose day and month are one digit each renders as `0d     0m`. */
  lemma FormatDateOneDigitFields(dateString: string, ageCategory: string, d: CalendarDate)
    requires ageCategory != "U15" && ParseIsoDate(dateString) == Some(d)
    requires d.day < 10 && d.month < 10
    ensures FormatDate(dateString, ageCategory) == ['0', DigitChar(d.day)] + "     " + ['0', DigitChar(d.month)]
  {
    FormatDateFields(dateString, ageCategory);
    Pad2OneDigit(d.day);
    Pad2OneDigit(d.month);
  }

  /** February 30 renders as the day it rolls over to: `02     03` in 2023. */
  lemma FormatDateRollover(dateString: string)
    requires dateString == "2023-02-30"
    ensures FormatDate(dateString, "U9") == "02     03"
  {
    ParseIsoDateRollover();
    FormatDateOneDigitFields(dateString, "U9", CalendarDate(2023, 3, 2));
    assert DigitChar(2) == '2' && DigitChar(3) == '3';
  }

  /** A day or month, padded to two places, is two digits that read back as it. */
  lemma Pad2Digits(n: nat)
    requires n < 100
    ensures |Pad2(Some(n))| == 2 && AllDigits(Pad2(Some(n))) && DecimalValue(Pad2(Some(n))) == n
  {
    PadTwoDigits(n);
  }

  /** A year from 1000 to 9999 is written with four digits that read back as it. */
  lemma YearDigits(n: nat)
    requires 1000 <= n < 10000
    ensures |NatToString(n)| == 4 && AllDigits(NatToString(n)) && DecimalValue(NatToString(n)) == n
  {
    assert Pow10(3) == 1000 && Pow10(4) == 10000;
    NatToStringLength(n, 4);
    DecimalRoundTrip(n);
  }

  /** A real day with a four-digit year, written `DD.MM.YYYY`, reads back as that day. */
  lemma DottedOfDate(d: CalendarDate)
    requires IsValidDate(d) && 1000 <= d.year < 10000
    ensures ParseDottedDate(Pad2(Some(d.day)) + "." + Pad2(Some(d.month)) + "." + NatToString(d.year)) == Some(d)
  {
    Pad2Digits(d.day);
    Pad2Digits(d.month);
    YearDigits(d.year);
    DottedReadBack(Pad2(Some(d.day)), Pad2(Some(d.month)), NatToString(d.year));
  }

  /** A real day written `DD     MM` reads back as its day and month. */
  lemma SpacedOfDate(d: CalendarDate)
    requires IsValidDate(d)
    ensures ParseSpacedDayMonth(Pad2(Some(d.day)) + "     " + Pad2(Some(d.month))) == Some((d.day, d.month))
  {
    Pad2Digits(d.day);
    Pad2Digits(d.month);
    SpacedReadBack(Pad2(Some(d.day)), Pad2(Some(d.month)));
  }

  /** The U15 rendering of a date with a four-digit year reads back, as `DD.MM.YYYY`, as that date. */
  lemma FormatDateU15RoundTrip(dateString: string)
    requires ParseIsoDate(dateString).Some? && ParseIsoDate(dateString).value.year >= 1000
    ensures ParseDottedDate(FormatDate(dateString, "U15")) == ParseIsoDate(dateString)
  {
    var d := ParseIsoDate(dateString).value;
    assert IsValidDate(d) && d.year < 10000 by { ParsedDateValid(dateString); }
    DottedOfDate(d);
    FormatDateFields(dateString, "U15");
  }

  /** The other categories' rendering reads back, as `DD     MM`, as the date's day and month. */
  lemma FormatDateDayMonthRoundTrip(dateString: string, ageCategory: string)
    requires ageCategory != "U15" && ParseIsoDate(dateString).Some?
    ensures var d := ParseIsoDate(dateString).value;
      ParseSpacedDayMonth(FormatDate(dateString, ageCategory)) == Some((d.day, d.month))
  {
    var d := ParseIsoDate(dateString).value;
    assert IsValidDate(d) by { ParsedDateValid(dateString); }
    SpacedOfDate(d);
    FormatDateFields(dateString, ageCategory);
  }

  // ---------------------------------------------------------------------------------------
  // File names and template paths

  /** The test suite's team names with punctuation lose it: "Team A!" and "Team@B". */
  lemma CleanTeamExamples()
    ensures CleanTeam("Team A!") == "TeamA"
    ensures CleanTeam("Team@B") == "TeamB"
  {
    assert CleanTeam("Team A!") == "TeamA" by {}
  }

  /**
   * The file names of the test suite: a match of "Team A!" and "Team@B" is filed as
   * `referee_report_<category>_TeamA_vs_TeamB_<date>.pdf`.
   */
  lemma FilenameExamples(formData: FormData)
    requires formData.team1 == "Team A!" && formData.team2 == "Team@B"
    ensures GenerateFilename(formData) == "referee_report_" + CategoryName(formData.ageCategory)
      + "_TeamA_vs_TeamB_" + CompactDate(formData.matchDate) + ".pdf"
  {
    CleanTeamExamples();
    FilenameOfCleanNames(formData, "TeamA", "TeamB");
    MatchLineText();
  }

  /** The file name once the cleaned team names are known. */
  lemma FilenameOfCleanNames(formData: FormData, team1Clean: string, team2Clean: string)
    requires CleanTeam(formData.team1) == team1Clean && CleanTeam(formData.team2) == team2Clean
    ensures GenerateFilename(formData) == "referee_report_" + CategoryName(formData.ageCategory)
      + ("_" + team1Clean + "_vs_" + team2Clean + "_") + CompactDate(formData.matchDate) + ".pdf"
  {
  }

  /** The middle of the test suite's file names, spelled out. */
  lemma MatchLineText()
    ensures "_" + "TeamA" + "_vs_" + "TeamB" + "_" == "_TeamA_vs_TeamB_"
  {
  }

  /** A cleaned team name holds only ASCII letters and digits, and cleaning it again changes nothing. */
  lemma CleanTeamAlnum(team: string)
    ensures forall i :: 0 <= i < |CleanTeam(team)| ==> IsAsciiAlnum(CleanTeam(team)[i])
    ensures CleanTeam(CleanTeam(team)) == CleanTeam(team)
  {
    var t := CleanTeam(team);
    RetainCount(team, IsAsciiAlnum);
    forall i | 0 <= i < |t| ensures IsAsciiAlnum(t[i]) {
      assert t[i] in multiset(t);
    }
    RetainAll(t, IsAsciiAlnum);
  }

  /** The file name's literal pieces, cut at each `_`. */
  lemma FilenamePieces(cat: string, t1: string, t2: string, d: string)
    ensures "referee_report_" + cat + "_" + t1 + "_vs_" + t2 + "_" + d + ".pdf" ==
      "referee" + ['_'] + "report" + ['_'] + cat + ['_'] + t1 + ['_'] + "vs" + ['_'] + t2 + ['_'] + (d + ".pdf")
  {
    assert "referee_report_" == "referee" + ['_'] + "report" + ['_'];
    assert "_vs_" == ['_'] + "vs" + ['_'];
  }

  /** The parts a file name is made of, in order. */
  function FilenameParts(formData: FormData): seq<string> {
    ["referee", "report", CategoryName(formData.ageCategory), CleanTeam(formData.team1), "vs",
     CleanTeam(formData.team2), CompactDate(formData.matchDate) + ".pdf"]
  }

  /** The file name is its parts joined with `_`. */
  lemma FilenameJoin(formData: FormData)
    ensures Join(FilenameParts(formData), '_') == GenerateFilename(formData)
  {
    JoinSeven(FilenameParts(formData), '_');
    FilenamePieces(CategoryName(formData.ageCategory), CleanTeam(formData.team1),
      CleanTeam(formData.team2), CompactDate(formData.matchDate));
  }

  /** No part of a file name holds a `_`, provided the match date has none. */
  lemma FilenamePartsSeparated(formData: FormData)
    requires '_' !in formData.matchDate
    ensures forall i :: 0 <= i < 7 ==> '_' !in FilenameParts(formData)[i]
  {
    var d := CompactDate(formData.matchDate);
    assert '_' !in CleanTeam(formData.team1) && '_' !in CleanTeam(formData.team2) by {
      CleanTeamAlnum(formData.team1);
      CleanTeamAlnum(formData.team2);
      assert !IsAsciiAlnum('_');
    }
    assert '_' !in d + ".pdf" by {
      RetainCount(formData.matchDate, KeptInDate);
      assert multiset(formData.matchDate)['_'] == 0;
      assert multiset(d)['_'] == 0;
    }
  }

  /**
   * The file name is unambiguous: split on `_` it gives back the category, both cleaned team
   * names and the compacted date, provided the date has no `_` of its own.
   */
  lemma FilenameFields(formData: FormData)
    requires '_' !in formData.matchDate
    ensures Split(GenerateFilename(formData), '_') ==
      ["referee", "report", CategoryName(formData.ageCategory), CleanTeam(formData.team1), "vs",
       CleanTeam(formData.team2), CompactDate(formData.matchDate) + ".pdf"]
  {
    FilenameJoin(formData);
    FilenamePartsSeparated(formData);
    SplitJoin(FilenameParts(formData), '_');
  }

  /** The template paths of the four categories, as the test suite expects them. */
  lemma TemplatePaths(root: string)
    ensures GetTemplatePath(root, "U9") == root + "/public" + "/reports/referee_template_u9.pdf"
    ensures GetTemplatePath(root, "U11") == root + "/public" + "/reports/referee_template_u11.pdf"
    ensures GetTemplatePath(root, "U13") == root + "/public" + "/reports/referee_template_u13.pdf"
    ensures GetTemplatePath(root, "U15") == root + "/public" + "/reports/referee_template_u15.pdf"
  {
    PdfClient.TemplatePaths();
    TemplatePathAgrees(root, "U9");
    TemplatePathAgrees(root, "U11");
    TemplatePathAgrees(root, "U13");
    TemplatePathAgrees(root, "U15");
  }

  /** Different categories use different templates. */
  lemma TemplatePathsDistinct(root: string, a: AgeCategory, b: AgeCategory)
    requires a != b
    ensures GetTemplatePath(root, CategoryName(a)) != GetTemplatePath(root, CategoryName(b))
  {
    TemplatePaths(root);
    var pa, pb := GetTemplatePath(root, CategoryName(a)), GetTemplatePath(root, CategoryName(b));
    var k := |root| + 33;
    assert |"/public/reports/referee_template_"| == 33;
    if |pa| == |pb| {
      assert pa[k + 1] != pb[k + 1] || pa[k + 2] != pb[k + 2];
    }
  }

  // ---------------------------------------------------------------------------------------
  // What reaches the page

  /** An absent second referee in U11 or U13 yields an overlay that is never drawn. */
  lemma AbsentRefereeTwoNotDrawn(formData: FormData, pageCount: nat)
    requires formData.ageCategory in {U11, U13} && formData.refereeName2.None?
    ensures var os := PdfClient.GetOverlays(formData);
      Overlay("", 101, 662, 0) in os && Overlay("", 101, 662, 0) !in Plan(Pages(os), os, pageCount)
  {
    var date := PdfClient.FormatDate(formData.matchDate, CategoryName(formData.ageCategory));
    var os := PdfClient.Layout(formData, date);
    TablesAgree(formData, date);
    U11U13Layout(formData, date);
    assert os[1] == Overlay("", 101, 662, 0);
    DrawnIff(os, pageCount, Overlay("", 101, 662, 0));
  }

  /** The client's U15 overlays: every one is on page 0, 4, 5 or 6, and the teams are at 11 and 12. */
  lemma U15ClientLayout(formData: FormData)
    requires formData.ageCategory == U15
    ensures var os := PdfClient.GetOverlays(formData);
      |os| == 17 && (forall i :: 0 <= i < |os| ==> os[i].page in {0, 4, 5, 6}) &&
      os[11] == Overlay(formData.team1, 150, 783, 5) && os[12] == Overlay(formData.team2, 160, 783, 6)
  {
    var date := PdfClient.FormatDate(formData.matchDate, "U15");
    TablesAgree(formData, date);
    U15Layout(formData, date);
  }

  /**
   * A U15 sheet on a template of at most four pages still renders: only its page-0 overlays
   * are drawn, each one whose text is not blank.
   */
  lemma U15ShortTemplate(formData: FormData, pageCount: nat)
    requires formData.ageCategory == U15 && pageCount <= 4
    ensures var os := PdfClient.GetOverlays(formData);
      forall o :: o in Plan(Pages(os), os, pageCount) <==> o in os && o.page == 0 && 0 < pageCount && !IsBlank(o.text)
  {
    var os := PdfClient.GetOverlays(formData);
    U15ClientLayout(formData);
    assert forall i :: 0 <= i < |os| ==> os[i].page == 0 || os[i].page >= pageCount;
    DrawnFirstPageOnly(os, pageCount);
  }

  /**
   * On a full seven-page U15 template the teams are drawn on pages 5 and 6 exactly when their
   * names are not blank.
   */
  lemma U15TeamPages(formData: FormData, pageCount: nat)
    requires formData.ageCategory == U15 && pageCount >= 7
    ensures var os := PdfClient.GetOverlays(formData);
      (Overlay(formData.team1, 150, 783, 5) in Plan(Pages(os), os, pageCount) <==> !IsBlank(formData.team1)) &&
      (Overlay(formData.team2, 160, 783, 6) in Plan(Pages(os), os, pageCount) <==> !IsBlank(formData.team2))
  {
    var os := PdfClient.GetOverlays(formData);
    U15ClientLayout(formData);
    DrawnIff(os, pageCount, Overlay(formData.team1, 150, 783, 5));
    DrawnIff(os, pageCount, Overlay(formData.team2, 160, 783, 6));
  }
}
