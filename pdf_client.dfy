/**
 * The browser-side report generator (`lib/pdf-client.ts`): the same layout tables, date
 * formatter, grouping and file name as the server, with the template fetched from the site's
 * `/reports` directory. The fetched template is a `PdfDocument` handed in by the caller.
 */
module PdfClient {
  import opened Strings
  import opened Report
  import opened Rendering

  /** `formatDate`: `DD.MM.YYYY` for `U15`, otherwise `DD`, five spaces, `MM`. */
  function FormatDate(dateString: string, age: string): string {
    var date := ParseIsoDate(dateString);
    if age == "U15" then
      Pad2(DayOf(date)) + "." + Pad2(MonthOf(date)) + "." + NumberText(YearOf(date))
    else
      Pad2(DayOf(date)) + "     " + Pad2(MonthOf(date))
  }

  /** `getTemplatePath`: the template's URL under the site's `/reports` directory. */
  function GetTemplatePath(age: string): string {
    "/reports/referee_template_" + ToLower(age) + ".pdf"
  }

  /** The template URLs of the four categories. */
  lemma TemplatePaths()
    ensures GetTemplatePath("U9") == "/reports/referee_template_u9.pdf"
    ensures GetTemplatePath("U11") == "/reports/referee_template_u11.pdf"
    ensures GetTemplatePath("U13") == "/reports/referee_template_u13.pdf"
    ensures GetTemplatePath("U15") == "/reports/referee_template_u15.pdf"
  {
    assert ToLower("U9") == "u9";
    assert ToLower("U11") == "u11";
    assert ToLower("U13") == "u13";
    assert ToLower("U15") == "u15";
  }

  /** `generateFilename`, written out a second time in the client. */
  function GenerateFilename(formData: FormData): string {
    var dateStr := Retain(formData.matchDate, KeptInDate);
    var team1Clean := Retain(formData.team1, IsAsciiAlnum);
    var team2Clean := Retain(formData.team2, IsAsciiAlnum);
    "referee_report_" + CategoryName(formData.ageCategory) + "_" + team1Clean + "_vs_" + team2Clean
      + "_" + dateStr + ".pdf"
  }

  /**
   * `getOverlays`: the literal table of the record's category. U9 formats the date as `U9`,
   * U11 and U13 with the record's own category, U15 as `U15`.
   */
  function GetOverlays(formData: FormData): seq<Overlay> {
    match formData.ageCategory
    case U9 => Layout(formData, FormatDate(formData.matchDate, "U9"))
    case U11 | U13 => Layout(formData, FormatDate(formData.matchDate, CategoryName(formData.ageCategory)))
    case U15 => Layout(formData, FormatDate(formData.matchDate, "U15"))
  }

  /**
   * The tables of `getOverlays`, with the formatted match date `date` standing for the one
   * computed text; the U15 table gets its four fixed "Ilfov" entries appended by `push`.
   */
  function Layout(formData: FormData, date: string): seq<Overlay> {
    match formData.ageCategory
    case U9 =>
      [ Overlay(formData.refereeName1, 101, 687, 0),
        Overlay(date, 337, 686, 0),
        Overlay(formData.team1 + " - " + formData.team2, 101, 712, 0),
        Overlay(formData.team1, 101, 636, 0),
        Overlay(formData.team2, 355, 636, 0) ]
    case U11 | U13 =>
      [ Overlay(formData.refereeName1, 101, 687, 0),
        Overlay(OrEmpty(formData.refereeName2), 101, 662, 0),
        Overlay(date, 346, 686, 0),
        Overlay(formData.startingHour, 335, 660, 0),
        Overlay(formData.team1 + " - " + formData.team2, 101, 712, 0),
        Overlay(formData.team1, 101, 636, 0),
        Overlay(formData.team2, 355, 636, 0) ]
    case U15 =>
      var arr :=
        [ Overlay(formData.refereeName1, 163, 353, 0),
          Overlay(OrEmpty(formData.assistantReferee1), 163, 338, 0),
          Overlay(OrEmpty(formData.assistantReferee2), 163, 321, 0),
          Overlay(OrEmpty(formData.fourthOfficial), 163, 305, 0),
          Overlay(date, 390, 425, 0),
          Overlay(formData.startingHour, 510, 425, 0),
          Overlay(formData.team1 + " - " + formData.team2, 110, 515, 0),
          Overlay(OrEmpty(formData.competition), 110, 453, 0),
          Overlay(OrEmpty(formData.stadiumName), 150, 399, 0),
          Overlay(OrEmpty(formData.stadiumLocality), 163, 426, 0),
          Overlay(date, 90, 78, 4),
          Overlay(formData.team1, 150, 783, 5),
          Overlay(formData.team2, 160, 783, 6) ];
      arr + [ Overlay("Ilfov", 490, 353, 0),
              Overlay("Ilfov", 490, 337, 0),
              Overlay("Ilfov", 490, 322, 0),
              Overlay("Ilfov", 490, 305, 0) ]
  }

  /**
   * `generateReportClient`: draws the record's overlays onto the fetched template and returns
   * the file name. The draw log grows by exactly the plan of the record's overlays.
   */
  method GenerateReportClient(pdfDoc: PdfDocument, formData: FormData) returns (filename: string)
    modifies pdfDoc
    ensures pdfDoc.drawn == old(pdfDoc.drawn) + Plan(Pages(GetOverlays(formData)), GetOverlays(formData), pdfDoc.pageCount)
    ensures filename == GenerateFilename(formData)
  {
    var overlays := GetOverlays(formData);
    DrawOverlays(pdfDoc, overlays);
    filename := GenerateFilename(formData);
  }

  /**
   * The outer loop of `generateReportClient`: groups the overlays by page, then visits the
   * groups in key order, skipping a page the template lacks and drawing the others.
   */
  method DrawOverlays(pdfDoc: PdfDocument, overlays: seq<Overlay>)
    modifies pdfDoc
    ensures pdfDoc.drawn == old(pdfDoc.drawn) + Plan(Pages(overlays), overlays, pdfDoc.pageCount)
  {
    var grouped := GroupOverlaysByPage(overlays);
    ghost var before := pdfDoc.drawn;
    for k := 0 to |grouped.order|
      invariant pdfDoc.drawn == before + Plan(grouped.order[..k], overlays, pdfDoc.pageCount)
    {
      var pageIndex: nat := grouped.order[k];
      assert pageIndex in grouped.groups;
      var pageOverlays := grouped.groups[pageIndex];
      PlanExtend(before, grouped.order, k, overlays, pdfDoc.pageCount);
      if pageIndex >= pdfDoc.pageCount {
        continue;
      }
      DrawPage(pdfDoc, pageIndex, pageOverlays);
    }
    assert grouped.order[..|grouped.order|] == grouped.order;
  }

  /** The inner loop of `generateReportClient`: one page's overlays in order, skipping blank text. */
  method DrawPage(pdfDoc: PdfDocument, pageIndex: nat, pageOverlays: seq<Overlay>)
    requires pageIndex < pdfDoc.pageCount
    requires forall o :: o in pageOverlays ==> o.page == pageIndex
    modifies pdfDoc
    ensures pdfDoc.drawn == old(pdfDoc.drawn) + NonBlank(pageOverlays)
  {
    ghost var before := pdfDoc.drawn;
    for j := 0 to |pageOverlays|
      invariant pdfDoc.drawn == before + NonBlank(pageOverlays[..j])
    {
      var overlay := pageOverlays[j];
      NonBlankExtend(before, pageOverlays, j);
      if IsBlank(overlay.text) {
        continue;
      }
      assert overlay in pageOverlays;
      pdfDoc.DrawText(pageIndex, overlay.text, overlay.x, overlay.y);
    }
    assert pageOverlays[..|pageOverlays|] == pageOverlays;
  }
}
