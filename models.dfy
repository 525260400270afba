/** The records of `src/models.rs`: the webhook message, the shift category and the shift. */
module Models {
  import opened Wrappers
  import opened Text
  import opened Calendar

  /** An attachment of an inbound message. */
  datatype WhatsappMedia = WhatsappMedia(url: string, mimetype: string)

  /** An inbound message: its text and an optional attachment. */
  datatype WhatsappMessage = WhatsappMessage(body: string, media: Option<WhatsappMedia>)

  /** The two mutually exclusive shift categories of a day. */
  datatype Planning = PO | PA

  /** The category's name as `{:?}` prints it. */
  function PlanningCode(p: Planning): (s: string)
    ensures |s| == 2 && s[0] == 'P'
  {
    match p
    case PO => "PO"
    case PA => "PA"
  }

  /** Reading a category name back: only "PO" and "PA" name one. */
  function ParsePlanning(s: string): (r: Option<Planning>)
    ensures r.Some? ==> PlanningCode(r.value) == s
    ensures r.None? ==> forall p: Planning :: PlanningCode(p) != s
  {
    if s == "PO" then Some(PO)
    else if s == "PA" then Some(PA)
    else None
  }

  lemma ParsePlanningCode(p: Planning)
    ensures ParsePlanning(PlanningCode(p)) == Some(p)
  {
  }

  /** One worker's shift on one date; (date, planning, boffId) is its natural key. */
  datatype Shift = Shift(
    boffId: string,
    name: string,
    date: Date,
    planning: Planning,
    start: Time,
    end: Time,
    info: Option<string>)

  const DefaultStart: Time := HourMinute(15, 0)
  const DefaultEnd: Time := HourMinute(22, 0)

  /** `Shift::default`: the placeholder shift of a date. */
  function DefaultShift(date: Date): Shift {
    Shift("", "", date, PA, DefaultStart, DefaultEnd, Some(""))
  }

  /**
   * The placeholder is an afternoon/evening shift of category PA that runs seven hours,
   * belongs to nobody, and carries a note that is present but empty.
   */
  lemma DefaultShiftShape(date: Date)
    ensures var s := DefaultShift(date);
      && s.date == date && s.planning == PA && s.boffId == "" && s.name == ""
      && FormatTime(s.start) == "15:00" && FormatTime(s.end) == "22:00"
      && Minutes(s.end) - Minutes(s.start) == 7 * 60
      && s.info == Some("") && Trim(s.info.value) == ""
  {
  }

  /** `Shift::uid`: the displayed date, the category and the worker id, joined by '-'. */
  function Uid(s: Shift): (u: string)
    ensures 0 <= s.date.year <= 9999 ==>
      |u| == 14 + |s.boffId| && u[..10] == FormatDate(s.date) && u[10] == '-'
      && u[11..13] == PlanningCode(s.planning) && u[13] == '-' && u[14..] == s.boffId
  {
    FormatDate(s.date) + "-" + PlanningCode(s.planning) + "-" + s.boffId
  }

  /**
   * For four-digit years the uid identifies the natural key: two shifts share a uid
   * exactly when they share date, category and worker id.
   */
  lemma UidIdentifiesKey(a: Shift, b: Shift)
    requires 0 <= a.date.year <= 9999 && 0 <= b.date.year <= 9999
    ensures Uid(a) == Uid(b) <==>
      a.date == b.date && a.planning == b.planning && a.boffId == b.boffId
  {
    if Uid(a) == Uid(b) {
      var u := Uid(a);
      FormatDateInjective(a.date, b.date);
      assert PlanningCode(a.planning) == u[11..13] == PlanningCode(b.planning);
      assert ParsePlanning(PlanningCode(a.planning)) == Some(a.planning);
    }
  }

  /** The placeholder of a date has the uid `YYYY-MM-DD-PA-`. */
  lemma DefaultShiftUid(date: Date)
    ensures Uid(DefaultShift(date)) == FormatDate(date) + "-PA-"
  {
  }
}
