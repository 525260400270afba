/**
 * Shift derivation of `src/parse.rs` (`parse_shifts`) and the selection of the configured
 * worker's shift (`process_schedule`). Grid columns: 0 worker id, 1 name, 2 note,
 * 3 start time, 4 end time.
 */
module Shifts {
  import opened Wrappers
  import opened Text
  import opened Calendar
  import opened Models

  /** The end time a row gets when its end column does not parse. */
  const FallbackEnd: Time := HourMinute(21, 0)

  /** Every row has the five columns `parse_shifts` indexes (a shorter row makes it panic). */
  predicate HasShiftColumns(rows: seq<seq<string>>) {
    forall i :: 0 <= i < |rows| ==> |rows[i]| >= 5
  }

  /** The note column: kept as written unless it trims to nothing. */
  function Note(text: string): Option<string> {
    if Trim(text) == "" then None else Some(text)
  }

  /** The shift one row yields, if its start time parses. */
  function RowShift(meta: (Date, Planning), row: seq<string>): Option<Shift>
    requires |row| >= 5
  {
    var end := ParseTime(row[4]).GetOr(FallbackEnd);
    match ParseTime(row[3])
    case None => None
    case Some(start) => Some(Shift(row[0], row[1], meta.0, meta.1, start, end, Note(row[2])))
  }

  /** The shifts an optional shift contributes: none or one. */
  function Yield(o: Option<Shift>): (r: seq<Shift>)
    ensures |r| <= 1 && (r == [] <==> o.None?)
  {
    if o.Some? then [o.value] else []
  }

  /** `parse_shifts`: the shifts of the rows whose start time parses, in row order. */
  function ParseShifts(meta: (Date, Planning), rows: seq<seq<string>>): (r: seq<Shift>)
    requires HasShiftColumns(rows)
    ensures |r| <= |rows|
    decreases |rows|
  {
    if rows == [] then [] else Yield(RowShift(meta, rows[0])) + ParseShifts(meta, rows[1..])
  }

  /**
   * What a shift derived from `row` holds, stated field by field: the row's id and name,
   * the message's date and category, the parsed start, the parsed end or 21:00, and the
   * note unless it is all whitespace.
   */
  predicate DerivedFrom(meta: (Date, Planning), row: seq<string>, s: Shift)
    requires |row| >= 5
  {
    && s.boffId == row[0] && s.name == row[1]
    && s.date == meta.0 && s.planning == meta.1
    && ParseTime(row[3]) == Some(s.start)
    && s.end == (if ParseTime(row[4]).Some? then ParseTime(row[4]).value else FallbackEnd)
    && s.info == (if IsBlank(row[2]) then None else Some(row[2]))
  }

  /** A row yields a shift exactly when its start parses, and that shift is derived from it. */
  lemma RowShiftSpec(meta: (Date, Planning), row: seq<string>)
    requires |row| >= 5
    ensures RowShift(meta, row).Some? <==> ParseTime(row[3]).Some?
    ensures RowShift(meta, row).Some? ==> DerivedFrom(meta, row, RowShift(meta, row).value)
  {
    TrimEmptyIffBlank(row[2]);
  }

  lemma ColumnsAppend(a: seq<seq<string>>, b: seq<seq<string>>)
    requires HasShiftColumns(a) && HasShiftColumns(b)
    ensures HasShiftColumns(a + b)
  {
  }

  /** Deriving shifts distributes over splitting the rows: the output keeps row order. */
  lemma {:induction false} ParseShiftsAppend(meta: (Date, Planning), a: seq<seq<string>>, b: seq<seq<string>>)
    requires HasShiftColumns(a) && HasShiftColumns(b)
    ensures HasShiftColumns(a + b)
    ensures ParseShifts(meta, a + b) == ParseShifts(meta, a) + ParseShifts(meta, b)
    decreases |a|
  {
    ColumnsAppend(a, b);
    if a == [] {
      assert a + b == b;
    } else {
      var ab := a + b;
      assert ab[0] == a[0];
      assert ab[1..] == a[1..] + b;
      ParseShiftsAppend(meta, a[1..], b);
      var first := Yield(RowShift(meta, a[0]));
      calc {
        ParseShifts(meta, ab);
        first + ParseShifts(meta, a[1..] + b);
        first + (ParseShifts(meta, a[1..]) + ParseShifts(meta, b));
        (first + ParseShifts(meta, a[1..])) + ParseShifts(meta, b);
      }
    }
  }

  /** A shift a row contributes is derived from that row. */
  lemma YieldDerived(meta: (Date, Planning), row: seq<string>, k: nat)
    requires |row| >= 5 && k < |Yield(RowShift(meta, row))|
    ensures DerivedFrom(meta, row, Yield(RowShift(meta, row))[k])
  {
    RowShiftSpec(meta, row);
  }

  /** Every derived shift comes from some row with a parsable start. */
  lemma {:induction false} ParseShiftsSound(meta: (Date, Planning), rows: seq<seq<string>>)
    requires HasShiftColumns(rows)
    ensures forall k :: 0 <= k < |ParseShifts(meta, rows)| ==>
      exists i :: 0 <= i < |rows| && DerivedFrom(meta, rows[i], ParseShifts(meta, rows)[k])
    decreases |rows|
  {
    if rows != [] {
      var tail := rows[1..];
      ParseShiftsSound(meta, tail);
      var first := Yield(RowShift(meta, rows[0]));
      var rest := ParseShifts(meta, tail);
      var r := ParseShifts(meta, rows);
      assert r == first + rest;
      forall k | 0 <= k < |r|
        ensures exists i :: 0 <= i < |rows| && DerivedFrom(meta, rows[i], r[k])
      {
        if k < |first| {
          YieldDerived(meta, rows[0], k);
          assert r[k] == first[k];
          assert DerivedFrom(meta, rows[0], r[k]);
        } else {
          var j := k - |first|;
          assert r[k] == rest[j];
          var i :| 0 <= i < |tail| && DerivedFrom(meta, tail[i], rest[j]);
          assert tail[i] == rows[i + 1];
          assert DerivedFrom(meta, rows[i + 1], r[k]);
        }
      }
    } else {
      assert ParseShifts(meta, rows) == [];
    }
  }

  /** Every row with a parsable start contributes its shift. */
  lemma {:induction false} ParseShiftsComplete(meta: (Date, Planning), rows: seq<seq<string>>, i: nat)
    requires HasShiftColumns(rows)
    requires i < |rows| && ParseTime(rows[i][3]).Some?
    ensures RowShift(meta, rows[i]).Some?
    ensures RowShift(meta, rows[i]).value in ParseShifts(meta, rows)
    decreases i
  {
    RowShiftSpec(meta, rows[i]);
    if i > 0 {
      ParseShiftsComplete(meta, rows[1..], i - 1);
    }
  }

  /** Nothing is derived exactly when no row's start parses. */
  lemma {:induction false} ParseShiftsEmpty(meta: (Date, Planning), rows: seq<seq<string>>)
    requires HasShiftColumns(rows)
    ensures ParseShifts(meta, rows) == [] <==> forall i :: 0 <= i < |rows| ==> ParseTime(rows[i][3]).None?
    decreases |rows|
  {
    if rows != [] {
      RowShiftSpec(meta, rows[0]);
      ParseShiftsEmpty(meta, rows[1..]);
      assert forall i :: 1 <= i < |rows| ==> rows[i] == rows[1..][i - 1];
    }
  }

  /** No derived shift carries a present-but-blank note. */
  lemma ParseShiftsNotes(meta: (Date, Planning), rows: seq<seq<string>>)
    requires HasShiftColumns(rows)
    ensures forall s :: s in ParseShifts(meta, rows) && s.info.Some? ==> !IsBlank(s.info.value)
  {
    ParseShiftsSound(meta, rows);
  }

  lemma ExampleTimes()
    ensures ParseTime("15:00") == Some(HourMinute(15, 0))
    ensures ParseTime("") == None && ParseTime("vrij") == None
  {
    ParseFormatTime(HourMinute(15, 0));
    assert FormatTime(HourMinute(15, 0)) == "15:00";
  }

  /** A single row yields exactly what that row contributes. */
  lemma ParseShiftsSingle(meta: (Date, Planning), row: seq<string>)
    requires |row| >= 5
    ensures ParseShifts(meta, [row]) == Yield(RowShift(meta, row))
  {
    assert [row][1..] == [];
  }

  lemma ExampleRows(meta: (Date, Planning))
    ensures RowShift(meta, ["42", "Ann", " ", "15:00", ""])
      == Some(Shift("42", "Ann", meta.0, meta.1, HourMinute(15, 0), FallbackEnd, None))
    ensures RowShift(meta, ["42", "Ann", "", "vrij", "22:00"]) == None
  {
    ExampleTimes();
    TrimEmptyIffBlank(" ");
    assert Note(" ") == None;
  }

  /** A row with a start but no usable end time gets 21:00; a row without a start gets nothing. */
  lemma ExampleFallbackEnd(meta: (Date, Planning))
    ensures ParseShifts(meta, [["42", "Ann", " ", "15:00", ""]])
      == [Shift("42", "Ann", meta.0, meta.1, HourMinute(15, 0), FallbackEnd, None)]
    ensures ParseShifts(meta, [["42", "Ann", "", "vrij", "22:00"]]) == []
  {
    ExampleRows(meta);
    ParseShiftsSingle(meta, ["42", "Ann", " ", "15:00", ""]);
    ParseShiftsSingle(meta, ["42", "Ann", "", "vrij", "22:00"]);
  }

  /** The first shift of the given worker, as `Iterator::find` returns it. */
  function FindShift(shifts: seq<Shift>, boffId: string): (r: Option<Shift>)
    ensures r.None? <==> forall k :: 0 <= k < |shifts| ==> shifts[k].boffId != boffId
    ensures r.Some? ==> (r.value.boffId == boffId
      && exists k :: 0 <= k < |shifts| && shifts[k] == r.value
            && (forall m :: 0 <= m < k ==> shifts[m].boffId != boffId))
    decreases |shifts|
  {
    if shifts == [] then None
    else if shifts[0].boffId == boffId then Some(shifts[0])
    else
      var r := FindShift(shifts[1..], boffId);
      assert forall k :: 1 <= k < |shifts| ==> shifts[k] == shifts[1..][k - 1];
      r
  }

  /** The shift found for a worker is one of the derived shifts and carries the message's date and category. */
  lemma FoundShiftBelongs(meta: (Date, Planning), rows: seq<seq<string>>, boffId: string)
    requires HasShiftColumns(rows) && FindShift(ParseShifts(meta, rows), boffId).Some?
    ensures var s := FindShift(ParseShifts(meta, rows), boffId).value;
      s.boffId == boffId && s in ParseShifts(meta, rows) && s.date == meta.0 && s.planning == meta.1
  {
    var shifts := ParseShifts(meta, rows);
    var s := FindShift(shifts, boffId).value;
    var k :| 0 <= k < |shifts| && shifts[k] == s;
    ParseShiftsSound(meta, rows);
    var i :| 0 <= i < |rows| && DerivedFrom(meta, rows[i], shifts[k]);
  }
}
