/**
 * The schedule announcement recogniser of `src/parse.rs`: the anchored pattern
 * `Planning <day><category> DD-MM-YYYY`, the metadata it yields (`parse_metadata`)
 * and the gate that decides whether a message is processed at all (`parse_schedule`).
 */
module Metadata {
  import opened Wrappers
  import opened Text
  import opened Calendar
  import opened Models

  /** The Dutch weekday abbreviations the pattern admits (Monday .. Sunday). */
  datatype DayCode = MA | DI | WO | DO | VR | ZA | ZO

  function DayCodeText(d: DayCode): (s: string)
    ensures |s| == 2
  {
    match d
    case MA => "MA"
    case DI => "DI"
    case WO => "WO"
    case DO => "DO"
    case VR => "VR"
    case ZA => "ZA"
    case ZO => "ZO"
  }

  /** The alternative `MA|DI|WO|DO|VR|ZA|ZO`. */
  function ParseDayCode(s: string): (r: Option<DayCode>)
    ensures r.Some? ==> DayCodeText(r.value) == s
    ensures r.None? ==> forall d: DayCode :: DayCodeText(d) != s
  {
    if s == "MA" then Some(MA)
    else if s == "DI" then Some(DI)
    else if s == "WO" then Some(WO)
    else if s == "DO" then Some(DO)
    else if s == "VR" then Some(VR)
    else if s == "ZA" then Some(ZA)
    else if s == "ZO" then Some(ZO)
    else None
  }

  /** The alternative `0[1-9]|[12][0-9]|3[01]`. */
  predicate DayField(s: string)
    requires |s| == 2
  {
    (s[0] == '0' && '1' <= s[1] <= '9')
    || ((s[0] == '1' || s[0] == '2') && IsDigit(s[1]))
    || (s[0] == '3' && (s[1] == '0' || s[1] == '1'))
  }

  /** The alternative `0[1-9]|1[0-2]`. */
  predicate MonthField(s: string)
    requires |s| == 2
  {
    (s[0] == '0' && '1' <= s[1] <= '9')
    || (s[0] == '1' && '0' <= s[1] <= '2')
  }

  /** The day alternative admits exactly the two-digit numbers 01..31. */
  lemma DayFieldRange(s: string)
    requires |s| == 2
    ensures DayField(s) <==> AllDigits(s) && 1 <= DigitsValue(s) <= 31
  {
    if AllDigits(s) { DigitsValueTwo(s); }
  }

  /** The month alternative admits exactly the two-digit numbers 01..12. */
  lemma MonthFieldRange(s: string)
    requires |s| == 2
    ensures MonthField(s) <==> AllDigits(s) && 1 <= DigitsValue(s) <= 12
  {
    if AllDigits(s) { DigitsValueTwo(s); }
  }

  /** The named capture groups of a match. */
  datatype Captures = Captures(day: DayCode, planning: Planning, dd: nat, mm: nat, yyyy: nat)

  /** What the pattern's groups can hold: day 1..31, month 1..12, a four-digit year. */
  predicate InRange(c: Captures) {
    1 <= c.dd <= 31 && 1 <= c.mm <= 12 && c.yyyy <= 9999
  }

  /** The message text whose groups are `c`. */
  function FormatBody(c: Captures): (s: string)
    requires InRange(c)
    ensures |s| == 24
  {
    "Planning " + DayCodeText(c.day) + PlanningCode(c.planning) + " "
      + Pad2(c.dd) + "-" + Pad2(c.mm) + "-" + Pad4(c.yyyy)
  }

  /** The pieces of a message text, read back at their fixed offsets. */
  lemma FormatBodyParts(c: Captures)
    requires InRange(c)
    ensures var s := FormatBody(c);
      && s[..9] == "Planning " && s[9..11] == DayCodeText(c.day) && s[11..13] == PlanningCode(c.planning)
      && s[13] == ' ' && s[14..16] == Pad2(c.dd) && s[16] == '-' && s[17..19] == Pad2(c.mm)
      && s[19] == '-' && s[20..] == Pad4(c.yyyy)
  {
  }

  /** A 24-character text whose pieces are those of `c` is the message text of `c`. */
  lemma BodyOfParts(body: string, c: Captures)
    requires InRange(c) && |body| == 24
    requires body[..9] == "Planning " && body[9..11] == DayCodeText(c.day)
    requires body[11..13] == PlanningCode(c.planning) && body[13] == ' '
    requires body[14..16] == Pad2(c.dd) && body[16] == '-' && body[17..19] == Pad2(c.mm)
    requires body[19] == '-' && body[20..] == Pad4(c.yyyy)
    ensures FormatBody(c) == body
  {
    assert body == body[..9] + body[9..11] + body[11..13] + [body[13]] + body[14..16]
      + [body[16]] + body[17..19] + [body[19]] + body[20..];
  }

  /**
   * `RE_BODY.captures`: the whole body must be the pattern (it is anchored at both ends),
   * which fixes its length at 24 characters.
   */
  function MatchBody(body: string): (r: Option<Captures>)
    ensures r.Some? ==> InRange(r.value) && FormatBody(r.value) == body
  {
    if |body| != 24 || body[..9] != "Planning " || body[13] != ' '
      || body[16] != '-' || body[19] != '-'
    then None
    else
      var day := ParseDayCode(body[9..11]);
      var planning := ParsePlanning(body[11..13]);
      var dd, mm, yyyy := body[14..16], body[17..19], body[20..];
      if day.None? || planning.None? || !DayField(dd) || !MonthField(mm) || !AllDigits(yyyy)
      then None
      else
        DayFieldRange(dd);
        MonthFieldRange(mm);
        Pad2OfDigits(dd);
        Pad2OfDigits(mm);
        Pad4OfDigits(yyyy);
        var c := Captures(day.value, planning.value, DigitsValue(dd), DigitsValue(mm), DigitsValue(yyyy));
        BodyOfParts(body, c);
        Some(c)
  }

  lemma ParseDayCodeText(d: DayCode)
    ensures ParseDayCode(DayCodeText(d)) == Some(d)
  {
  }

  /** Every in-range capture tuple is recognised from its own message text. */
  lemma MatchFormatBody(c: Captures)
    requires InRange(c)
    ensures MatchBody(FormatBody(c)) == Some(c)
  {
    var s := FormatBody(c);
    FormatBodyParts(c);
    DayFieldRange(s[14..16]);
    MonthFieldRange(s[17..19]);
    ParseDayCodeText(c.day);
    ParsePlanningCode(c.planning);
  }

  /** `RE_BODY.is_match`. */
  predicate IsMatch(body: string) {
    MatchBody(body).Some?
  }

  /** `parse_metadata`: the captured category and the captured date, if that date exists. */
  function ParseMetadata(body: string): Option<(Date, Planning)> {
    match MatchBody(body)
    case None => None
    case Some(c) =>
      var ymd := Ymd(c.yyyy, c.mm, c.dd);
      if ValidDate(ymd) then Some((ymd, c.planning)) else None
  }

  /**
   * Metadata is found only in messages that spell out its date and category in the
   * pattern with some day code; `ParseMetadataComplete` is the converse.
   */
  lemma ParseMetadataSound(body: string)
    requires ParseMetadata(body).Some?
    ensures var (date, p) := ParseMetadata(body).value;
      0 <= date.year <= 9999 && IsMatch(body)
      && exists d: DayCode :: body == FormatBody(Captures(d, p, date.day, date.month, date.year))
  {
    var c := MatchBody(body).value;
    assert body == FormatBody(Captures(c.day, c.planning, c.dd, c.mm, c.yyyy));
  }

  lemma ParseMetadataComplete(d: DayCode, p: Planning, date: Date)
    requires 0 <= date.year <= 9999
    ensures ParseMetadata(FormatBody(Captures(d, p, date.day, date.month, date.year))) == Some((date, p))
  {
    MatchFormatBody(Captures(d, p, date.day, date.month, date.year));
  }

  /** A message that fits the pattern but names a day its month lacks yields nothing. */
  lemma ParseMetadataRejectsImpossibleDate(body: string)
    requires IsMatch(body)
    requires var c := MatchBody(body).value; c.dd > DaysInMonth(c.yyyy, c.mm)
    ensures ParseMetadata(body) == None
  {
  }

  /** `parse_schedule`'s gate: the body fits the pattern and a JPEG image is attached. */
  predicate ParseScheduleGate(msg: WhatsappMessage) {
    IsMatch(msg.body) && msg.media.Some? && msg.media.value.mimetype == "image/jpeg"
  }

  lemma ExamplePads()
    ensures Pad2(5) == "05" && Pad2(1) == "01" && Pad2(31) == "31" && Pad2(2) == "02"
    ensures Pad4(2025) == "2025"
  {
    assert Pad2(20) == "20" && Pad2(25) == "25";
  }

  lemma ExampleAccepted()
    ensures ParseMetadata("Planning MAPA 05-01-2025") == Some((Ymd(2025, 1, 5), PA))
  {
    var c := Captures(MA, PA, 5, 1, 2025);
    MatchFormatBody(c);
    ExamplePads();
    assert FormatBody(c) == "Planning MAPA 05-01-2025";
  }

  lemma ExampleBadDayCode()
    ensures !IsMatch("Planning XXPA 05-01-2025")
    ensures ParseMetadata("Planning XXPA 05-01-2025") == None
  {
    var s := "Planning XXPA 05-01-2025";
    assert s[9..11] == "XX";
    assert ParseDayCode(s[9..11]) == None;
  }

  /**
   * The gate lets a message with the impossible date 31-02-2025 through; metadata
   * extraction then yields nothing for it.
   */
  lemma ExampleImpossibleDate()
    ensures ParseScheduleGate(WhatsappMessage("Planning MAPA 31-02-2025", Some(WhatsappMedia("u", "image/jpeg"))))
    ensures ParseMetadata("Planning MAPA 31-02-2025") == None
  {
    var c := Captures(MA, PA, 31, 2, 2025);
    MatchFormatBody(c);
    ExamplePads();
    assert FormatBody(c) == "Planning MAPA 31-02-2025";
  }
}
