/**
 * `validateFormData` of the report API route: a fixed sequence of checks on the request body,
 * each returning its message on the first failure, and `null` (`None`) when all pass.
 */
module Validation {
  import opened Wrappers
  import opened Strings
  import opened Report
  import PdfService

  /** The JSON request body as the route reads it: the string fields it carries, by name. */
  type Request = map<string, string>

  /** The fields every request must carry, in the order they are checked. */
  const RequiredFields: seq<string> :=
    ["referee_name_1", "match_date", "starting_hour", "team_1", "team_2", "age_category"]

  const InvalidCategoryMessage := "Invalid age category. Must be U9, U11, U13, or U15"
  const Referee2Message := "referee_name_2 is required for U11 and U13 categories"
  const DateFormatMessage := "match_date must be in YYYY-MM-DD format"
  const TimeFormatMessage := "starting_hour must be in HH:MM format"

  /** `Missing required field: ${field}` */
  function MissingMessage(field: string): string {
    "Missing required field: " + field
  }

  /** `!formData[field] || formData[field].toString().trim() === ''`: absent, empty or all whitespace. */
  predicate Missing(req: Request, field: string) {
    field !in req || IsBlank(req[field])
  }

  /** The required-field loop: the first of `fields` that is missing, if any. */
  function FirstMissing(req: Request, fields: seq<string>): (r: Option<string>)
    ensures r.None? <==> forall i :: 0 <= i < |fields| ==> !Missing(req, fields[i])
    ensures r.Some? ==> exists i :: (0 <= i < |fields| && fields[i] == r.value && Missing(req, fields[i]) &&
      forall j :: 0 <= j < i ==> !Missing(req, fields[j]))
  {
    if fields == [] then None
    else if Missing(req, fields[0]) then Some(fields[0])
    else
      var rest := FirstMissing(req, fields[1..]);
      assert forall j :: 1 <= j < |fields| ==> fields[j] == fields[1..][j - 1];
      rest
  }

  /** Once no required field is missing, each of them is present. */
  lemma RequiredPresent(req: Request)
    requires FirstMissing(req, RequiredFields).None?
    ensures "match_date" in req && "starting_hour" in req && "age_category" in req
  {
    assert !Missing(req, RequiredFields[1]) && !Missing(req, RequiredFields[2]) && !Missing(req, RequiredFields[5]);
  }

  /** `validateFormData`: the message of the first failing check, or `None` when every check passes. */
  function ValidateFormData(req: Request): Option<string> {
    var missing := FirstMissing(req, RequiredFields);
    if missing.Some? then Some(MissingMessage(missing.value))
    else
      RequiredPresent(req);
      var category := req["age_category"];
      if category !in CategoryNames then Some(InvalidCategoryMessage)
      else if (category == "U11" || category == "U13") && Missing(req, "referee_name_2") then Some(Referee2Message)
      else if !IsIsoDateShape(req["match_date"]) then Some(DateFormatMessage)
      else if !IsTimeShape(req["starting_hour"]) then Some(TimeFormatMessage)
      else None
  }

  /**
   * What an acceptable request is, stated rule by rule: every required field present and not
   * blank, a known category, a second referee for U11 and U13, and dates and times of the
   * `YYYY-MM-DD` and `HH:MM` shapes.
   */
  predicate Acceptable(req: Request) {
    && (forall f :: f in RequiredFields ==> f in req && !IsBlank(req[f]))
    && "age_category" in req && "match_date" in req && "starting_hour" in req
    && req["age_category"] in CategoryNames
    && (req["age_category"] in ["U11", "U13"] ==> "referee_name_2" in req && !IsBlank(req["referee_name_2"]))
    && IsIsoDateShape(req["match_date"])
    && IsTimeShape(req["starting_hour"])
  }

  /** The validator passes a request exactly when it is acceptable. */
  lemma ValidateAcceptsIffAcceptable(req: Request)
    ensures ValidateFormData(req).None? <==> Acceptable(req)
  {
    var none := FirstMissing(req, RequiredFields).None?;
    if none {
      RequiredPresent(req);
      forall f | f in RequiredFields ensures f in req && !IsBlank(req[f]) {
        var i :| 0 <= i < |RequiredFields| && RequiredFields[i] == f;
        assert !Missing(req, RequiredFields[i]);
      }
    }
    if Acceptable(req) {
      forall i | 0 <= i < |RequiredFields| ensures !Missing(req, RequiredFields[i]) {
        assert RequiredFields[i] in RequiredFields;
      }
    }
  }

  /** A missing field is reported, by name, exactly when every field checked before it is there. */
  lemma MissingFieldReported(req: Request, i: nat)
    requires i < |RequiredFields| && Missing(req, RequiredFields[i])
    ensures ValidateFormData(req) == Some(MissingMessage(RequiredFields[i])) <==>
      forall j :: 0 <= j < i ==> !Missing(req, RequiredFields[j])
  {
    var r := FirstMissing(req, RequiredFields);
    var k :| 0 <= k < |RequiredFields| && RequiredFields[k] == r.value && Missing(req, RequiredFields[k]) &&
      forall j :: 0 <= j < k ==> !Missing(req, RequiredFields[j]);
    assert k <= i;
    if ValidateFormData(req) == Some(MissingMessage(RequiredFields[i])) {
      assert MissingMessage(RequiredFields[i])[24..] == RequiredFields[i];
      assert MissingMessage(r.value)[24..] == r.value;
      assert RequiredFields[k] == RequiredFields[i];
      assert k == i;
    }
  }

  /** With every required field there, a category outside U9, U11, U13 and U15 is the failure reported. */
  lemma UnknownCategoryReported(req: Request)
    requires forall f :: f in RequiredFields ==> f in req && !IsBlank(req[f])
    requires "age_category" in req && req["age_category"] !in CategoryNames
    ensures ValidateFormData(req) == Some(InvalidCategoryMessage)
  {
    forall i | 0 <= i < |RequiredFields| ensures !Missing(req, RequiredFields[i]) {
      assert RequiredFields[i] in RequiredFields;
    }
  }

  /** With every required field there and a known category, a U11 or U13 request without a second referee is reported. */
  lemma Referee2Reported(req: Request)
    requires forall f :: f in RequiredFields ==> f in req && !IsBlank(req[f])
    requires "age_category" in req && req["age_category"] in ["U11", "U13"]
    requires Missing(req, "referee_name_2")
    ensures ValidateFormData(req) == Some(Referee2Message)
  {
    forall i | 0 <= i < |RequiredFields| ensures !Missing(req, RequiredFields[i]) {
      assert RequiredFields[i] in RequiredFields;
    }
  }

  /** Once the fields, the category and the second referee pass, a date not of the `YYYY-MM-DD` shape is reported. */
  lemma DateShapeReported(req: Request)
    requires forall f :: f in RequiredFields ==> f in req && !IsBlank(req[f])
    requires "age_category" in req && req["age_category"] in CategoryNames
    requires req["age_category"] in ["U11", "U13"] ==> !Missing(req, "referee_name_2")
    requires "match_date" in req && !IsIsoDateShape(req["match_date"])
    ensures ValidateFormData(req) == Some(DateFormatMessage)
  {
    forall i | 0 <= i < |RequiredFields| ensures !Missing(req, RequiredFields[i]) {
      assert RequiredFields[i] in RequiredFields;
    }
  }

  /** Once every earlier check passes, a starting hour not of the `HH:MM` shape is reported. */
  lemma TimeShapeReported(req: Request)
    requires forall f :: f in RequiredFields ==> f in req && !IsBlank(req[f])
    requires "age_category" in req && req["age_category"] in CategoryNames
    requires req["age_category"] in ["U11", "U13"] ==> !Missing(req, "referee_name_2")
    requires "match_date" in req && IsIsoDateShape(req["match_date"])
    requires "starting_hour" in req && !IsTimeShape(req["starting_hour"])
    ensures ValidateFormData(req) == Some(TimeFormatMessage)
  {
    forall i | 0 <= i < |RequiredFields| ensures !Missing(req, RequiredFields[i]) {
      assert RequiredFields[i] in RequiredFields;
    }
  }

  /**
   * The second referee is checked for U11 and U13 only: for U9 and U15 the validator gives the
   * same answer whatever `referee_name_2` holds, and whether it is there at all.
   */
  lemma Referee2IgnoredOutsideU11U13(req: Request, name: string)
    requires "age_category" in req && req["age_category"] in ["U9", "U15"]
    ensures ValidateFormData(req["referee_name_2" := name]) == ValidateFormData(req)
    ensures ValidateFormData(req - {"referee_name_2"}) == ValidateFormData(req)
  {
    AgreeBesidesReferee2(req, req["referee_name_2" := name]);
    AgreeBesidesReferee2(req, req - {"referee_name_2"});
  }

  /** Two U9 or U15 requests that differ at most in `referee_name_2` are judged alike. */
  lemma AgreeBesidesReferee2(a: Request, b: Request)
    requires "age_category" in a && a["age_category"] in ["U9", "U15"]
    requires forall k :: k != "referee_name_2" ==> (k in a <==> k in b)
    requires forall k :: k != "referee_name_2" && k in a ==> a[k] == b[k]
    ensures ValidateFormData(a) == ValidateFormData(b)
  {
    assert "referee_name_2" !in RequiredFields;
    forall i | 0 <= i < |RequiredFields| ensures Missing(a, RequiredFields[i]) == Missing(b, RequiredFields[i]) {
      assert RequiredFields[i] in RequiredFields;
    }
    FirstMissingSameFields(a, b, RequiredFields);
    if FirstMissing(a, RequiredFields).None? {
      RequiredPresent(a);
      RequiredPresent(b);
      assert a["age_category"] == b["age_category"];
      assert a["match_date"] == b["match_date"] && a["starting_hour"] == b["starting_hour"];
    }
  }

  /** Two requests that agree on which fields are missing agree on the first missing one. */
  lemma {:induction false} FirstMissingSameFields(a: Request, b: Request, fields: seq<string>)
    requires forall i :: 0 <= i < |fields| ==> Missing(a, fields[i]) == Missing(b, fields[i])
    ensures FirstMissing(a, fields) == FirstMissing(b, fields)
    decreases |fields|
  {
    if fields != [] {
      assert forall i :: 0 <= i < |fields| - 1 ==> fields[1..][i] == fields[i + 1];
      FirstMissingSameFields(a, b, fields[1..]);
    }
  }

  /** An accepted request names one of the four categories. */
  lemma AcceptedCategoryParses(req: Request)
    requires ValidateFormData(req).None?
    ensures "age_category" in req && ParseCategory(req["age_category"]).Some?
  {
    RequiredPresent(req);
  }

  /**
   * An accepted match date is ten characters, digits except the two dashes, and the file name
   * carries it as its eight digits.
   */
  lemma AcceptedDateCompacts(req: Request)
    requires ValidateFormData(req).None?
    ensures "match_date" in req && IsIsoDateShape(req["match_date"])
    ensures var d := req["match_date"];
      PdfService.CompactDate(d) == d[..4] + d[5..7] + d[8..]
  {
    RequiredPresent(req);
    CompactIsoDate(req["match_date"]);
  }

  /** Compacting a `YYYY-MM-DD` text drops its two dashes and keeps its eight digits. */
  lemma CompactIsoDate(d: string)
    requires IsIsoDateShape(d)
    ensures PdfService.CompactDate(d) == d[..4] + d[5..7] + d[8..]
    ensures |PdfService.CompactDate(d)| == 8 && AllDigits(PdfService.CompactDate(d))
  {
    var y, m, dd := d[..4], d[5..7], d[8..];
    assert d == y + "-" + m + "-" + dd;
    RetainAppend(y + "-" + m + "-", dd, KeptInDate);
    RetainAppend(y + "-" + m, "-", KeptInDate);
    RetainAppend(y + "-", m, KeptInDate);
    RetainAppend(y, "-", KeptInDate);
    assert Retain("-", KeptInDate) == [];
    RetainAll(y, KeptInDate);
    RetainAll(m, KeptInDate);
    RetainAll(dd, KeptInDate);
    var r := y + m + dd;
    assert forall i :: 0 <= i < 8 ==> r[i] == if i < 4 then y[i] else if i < 6 then m[i - 4] else dd[i - 6];
  }

  /**
   * Neither shape check looks at ranges: "99:99" passes as a time, and "2023-13-45" passes as a
   * match date although no such day exists, so the report renders it with NaN fields.
   */
  lemma ShapeChecksOnly()
    ensures IsTimeShape("99:99")
    ensures IsIsoDateShape("2023-13-45") && ParseIsoDate("2023-13-45").None?
  {
    var d := "2023-13-45";
    assert "99:99"[..2] == "99" && "99:99"[3..] == "99";
    assert d[..4] == "2023" && d[5..7] == "13" && d[8..] == "45";
    assert DecimalValue("13") == 13 by {
      TwoDigitValue('1', '3');
    }
  }
}
