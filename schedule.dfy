/**
 * The message handling of `src/parse.rs` (`parse_schedule`, `process_schedule`): the gate,
 * then metadata, table reconstruction, shift derivation and selection of the configured
 * worker's shift. Fetching the image and running the document analysis are not modelled;
 * their combined outcome is the parameter `analysis` (None when either failed).
 */
module Schedule {
  import opened Wrappers
  import opened Models
  import opened Metadata
  import opened Blocks
  import opened Shifts

  /** Why background processing stopped without uploading. */
  datatype Abort =
    | NoMetadata       // the body does not match the pattern, or its date does not exist
    | AnalysisFailed   // the image could not be fetched or analysed
    | RowTooShort      // a grid row has fewer than five columns: `parse_shifts` panics
    | ShiftNotFound    // no derived shift belongs to the configured worker

  /** What handling one message leads to. */
  datatype Outcome = Ignored | Aborted(reason: Abort) | Upload(shift: Shift)

  /** `process_schedule`, with the outcome of fetching and analysing the image as a parameter. */
  function ProcessSchedule(msg: WhatsappMessage, boffId: string, analysis: Option<seq<Block>>): (o: Outcome)
    ensures o != Ignored
    ensures o == Aborted(NoMetadata) <==> ParseMetadata(msg.body).None?
    ensures o.Upload? ==>
      (o.shift.boffId == boffId && ParseMetadata(msg.body) == Some((o.shift.date, o.shift.planning)))
  {
    match ParseMetadata(msg.body)
    case None => Aborted(NoMetadata)
    case Some(meta) =>
      match analysis
      case None => Aborted(AnalysisFailed)
      case Some(blocks) =>
        var grid := BlocksGrid(blocks);
        if !HasShiftColumns(grid) then Aborted(RowTooShort)
        else
          match FindShift(ParseShifts(meta, grid), boffId)
          case None => Aborted(ShiftNotFound)
          case Some(shift) =>
            FoundShiftBelongs(meta, grid, boffId);
            Upload(shift)
  }

  /** `parse_schedule`: a message that fails the gate is dropped before any processing. */
  function HandleMessage(msg: WhatsappMessage, boffId: string, analysis: Option<seq<Block>>): Outcome {
    if ParseScheduleGate(msg) then ProcessSchedule(msg, boffId, analysis) else Ignored
  }

  /** A message is ignored, with no analysis and no upload, exactly when it fails the gate. */
  lemma IgnoredIffGateFails(msg: WhatsappMessage, boffId: string, analysis: Option<seq<Block>>)
    ensures HandleMessage(msg, boffId, analysis) == Ignored <==> !ParseScheduleGate(msg)
  {
  }

  /**
   * Only the configured worker's shift is ever uploaded: it is the first derived shift with
   * that worker id, and it carries the date and category the message announced.
   */
  lemma UploadIsConfiguredWorker(msg: WhatsappMessage, boffId: string, analysis: Option<seq<Block>>)
    requires HandleMessage(msg, boffId, analysis).Upload?
    ensures var s := HandleMessage(msg, boffId, analysis).shift;
      && ParseScheduleGate(msg) && msg.media.value.mimetype == "image/jpeg"
      && analysis.Some?
      && ParseMetadata(msg.body) == Some((s.date, s.planning))
      && s.boffId == boffId
      && HasShiftColumns(BlocksGrid(analysis.value))
      && s in ParseShifts((s.date, s.planning), BlocksGrid(analysis.value))
      && s == FindShift(ParseShifts((s.date, s.planning), BlocksGrid(analysis.value)), boffId).value
  {
    var meta := ParseMetadata(msg.body).value;
    FoundShiftBelongs(meta, BlocksGrid(analysis.value), boffId);
  }

  /** A gated message whose table holds a row for the worker leads to an upload. */
  lemma UploadWhenWorkerPresent(msg: WhatsappMessage, boffId: string, blocks: seq<Block>, k: nat)
    requires ParseScheduleGate(msg) && ParseMetadata(msg.body).Some?
    requires HasShiftColumns(BlocksGrid(blocks))
    requires var shifts := ParseShifts(ParseMetadata(msg.body).value, BlocksGrid(blocks));
      k < |shifts| && shifts[k].boffId == boffId
    ensures HandleMessage(msg, boffId, Some(blocks)).Upload?
  {
  }
}
