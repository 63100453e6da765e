/** The approved-hours CSV export, and a reader for it. */
module Csv {
  import opened Common
  import opened Text
  import Calendar

  datatype HourRecord = HourRecord(
    hourEntryId: Text, personId: Text, opportunityId: Text, chapterId: Option<Text>, shiftId: Option<Text>,
    durationMinutes: nat, description: Option<Text>, approverPersonId: Text, approvedAt: Text)

  // ---------- printing ----------

  predicate NeedsQuoting(u: Unit) {
    u == QUOTE || u == COMMA || u == LF || u == CR
  }

  /** `raw.replace(/"/g, '""')`. */
  function DoubleQuotes(raw: Text): Text {
    if raw == [] then []
    else (if raw[0] == QUOTE then [QUOTE, QUOTE] else [raw[0]]) + DoubleQuotes(raw[1..])
  }

  function CsvField(raw: Text): Text {
    if exists i :: 0 <= i < |raw| && NeedsQuoting(raw[i]) then [QUOTE] + DoubleQuotes(raw) + [QUOTE] else raw
  }

  function PrintedFields(fields: seq<Text>): seq<Text> {
    seq(|fields|, i requires 0 <= i < |fields| => CsvField(fields[i]))
  }

  function PrintedRow(fields: seq<Text>): Text {
    Join(PrintedFields(fields), [COMMA])
  }

  function PrintedRows(rows: seq<seq<Text>>): seq<Text> {
    seq(|rows|, i requires 0 <= i < |rows| => PrintedRow(rows[i]))
  }

  /** `Math.round(minutes / 60 * 100)`: the hours in hundredths. */
  function HourHundredths(durationMinutes: nat): nat {
    Calendar.RoundDiv(durationMinutes * 100, 60)
  }

  /** The shortest decimal text of a number of hundredths. */
  function HundredthsText(h: nat): Text {
    Decimal(h / 100)
    + if h % 100 == 0 then []
      else if h % 10 == 0 then [POINT, 48 + h % 100 / 10]
      else [POINT, 48 + h % 100 / 10, 48 + h % 10]
  }

  function OrEmpty(value: Option<Text>): Text {
    match value case Some(t) => t case None => []
  }

  const COLUMNS: seq<string> := ["hourEntryId", "personId", "opportunityId", "chapterId", "shiftId",
                                 "durationMinutes", "hours", "description", "approverPersonId", "approvedAt"]

  function HeaderFields(): seq<Text> {
    seq(|COLUMNS|, i requires 0 <= i < |COLUMNS| => Ascii(COLUMNS[i]))
  }

  /** The ten texts of a record, in column order. */
  function RecordFields(r: HourRecord): (fields: seq<Text>)
    ensures |fields| == |COLUMNS|
  {
    [r.hourEntryId, r.personId, r.opportunityId, OrEmpty(r.chapterId), OrEmpty(r.shiftId),
     Decimal(r.durationMinutes), HundredthsText(HourHundredths(r.durationMinutes)), OrEmpty(r.description),
     r.approverPersonId, r.approvedAt]
  }

  function AllFields(records: seq<HourRecord>): seq<seq<Text>> {
    seq(|records|, i requires 0 <= i < |records| => RecordFields(records[i]))
  }

  /** Header first, lines joined and ended by CRLF; header names are joined unquoted. */
  function BuildApprovedHoursCsv(records: seq<HourRecord>): Text {
    Join([Join(HeaderFields(), [COMMA])] + PrintedRows(AllFields(records)), [CR, LF]) + [CR, LF]
  }

  // ---------- reading (section 2 of RFC 4180) ----------

  /** After an opening quote: the field's text up to the closing quote, doubled quotes undone, and the rest. */
  function ReadQuoted(t: Text): Option<(Text, Text)> {
    if t == [] then None
    else if t[0] != QUOTE then
      match ReadQuoted(t[1..])
      case None => None
      case Some(r) => Some(([t[0]] + r.0, r.1))
    else if |t| > 1 && t[1] == QUOTE then
      match ReadQuoted(t[2..])
      case None => None
      case Some(r) => Some(([QUOTE] + r.0, r.1))
    else Some(([], t[1..]))
  }

  /** An unquoted field ends at the first comma, quote, or line break. */
  function ReadPlain(t: Text): (Text, Text) {
    if t == [] || NeedsQuoting(t[0]) then ([], t)
    else
      var r := ReadPlain(t[1..]);
      ([t[0]] + r.0, r.1)
  }

  function ReadField(t: Text): Option<(Text, Text)> {
    if t != [] && t[0] == QUOTE then ReadQuoted(t[1..]) else Some(ReadPlain(t))
  }

  lemma {:induction false} ReadShrinks(t: Text)
    ensures ReadQuoted(t).Some? ==> |ReadQuoted(t).value.1| < |t|
    ensures |ReadPlain(t).1| <= |t|
    decreases |t|
  {
    if t != [] {
      ReadShrinks(t[1..]);
      if |t| > 1 {
        ReadShrinks(t[2..]);
      }
    }
  }

  /** Fields separated by commas up to a CRLF or the end of the text. */
  function ReadRecord(t: Text): Option<(seq<Text>, Text)>
    decreases |t|
  {
    ReadShrinks(t);
    ReadShrinks(if t == [] then t else t[1..]);
    match ReadField(t)
    case None => None
    case Some((field, rest)) =>
      if rest == [] then Some(([field], []))
      else if |rest| > 1 && rest[0] == CR && rest[1] == LF then Some(([field], rest[2..]))
      else if rest[0] != COMMA then None
      else
        match ReadRecord(rest[1..])
        case None => None
        case Some((fields, after)) => Some(([field] + fields, after))
  }

  /** All records; a text that is not such a file reads as `None`. */
  function ReadFile(t: Text): Option<seq<seq<Text>>>
    decreases |t|
  {
    if t == [] then Some([])
    else
      match ReadRecord(t)
      case None => None
      case Some((fields, rest)) =>
        if |rest| >= |t| then None
        else
          match ReadFile(rest)
          case None => None
          case Some(rows) => Some([fields] + rows)
  }

  // ---------- the reader undoes the printer ----------

  predicate IsPlain(raw: Text) {
    forall i :: 0 <= i < |raw| ==> !NeedsQuoting(raw[i])
  }

  lemma {:induction false} PlainReadsBack(raw: Text, rest: Text)
    requires IsPlain(raw) && (rest == [] || NeedsQuoting(rest[0]))
    ensures ReadPlain(raw + rest) == (raw, rest)
    decreases |raw|
  {
    if raw == [] {
      assert raw + rest == rest;
    } else {
      assert (raw + rest)[1..] == raw[1..] + rest;
      PlainReadsBack(raw[1..], rest);
      assert [raw[0]] + raw[1..] == raw;
    }
  }

  lemma {:induction false} QuotedReadsBack(raw: Text, rest: Text)
    requires rest == [] || rest[0] != QUOTE
    ensures ReadQuoted(DoubleQuotes(raw) + [QUOTE] + rest) == Some((raw, rest))
    decreases |raw|
  {
    var t := DoubleQuotes(raw) + [QUOTE] + rest;
    if raw == [] {
      assert t == [QUOTE] + rest;
    } else {
      QuotedReadsBack(raw[1..], rest);
      assert [raw[0]] + raw[1..] == raw;
      var tail := DoubleQuotes(raw[1..]) + [QUOTE] + rest;
      if raw[0] == QUOTE {
        assert t == [QUOTE, QUOTE] + tail;
        assert t[2..] == tail;
      } else {
        assert t == [raw[0]] + tail;
        assert t[1..] == tail;
      }
    }
  }

  /** Whatever mix of commas, quotes, CR and LF a field holds, it reads back. */
  lemma FieldReadsBack(raw: Text, rest: Text)
    requires rest == [] || rest[0] == COMMA || rest[0] == CR
    ensures ReadField(CsvField(raw) + rest) == Some((raw, rest))
  {
    hide ReadQuoted, ReadPlain, DoubleQuotes;
    if IsPlain(raw) {
      PlainReadsBack(raw, rest);
      assert raw == [] ==> raw + rest == rest;
    } else {
      var t := CsvField(raw) + rest;
      assert t[1..] == DoubleQuotes(raw) + [QUOTE] + rest;
      QuotedReadsBack(raw, rest);
    }
  }

  /** A field is quoted exactly when it holds a quote, a comma, a line feed or a carriage return. */
  lemma QuotedExactlyWhen(raw: Text)
    ensures CsvField(raw) == raw <==> forall i :: 0 <= i < |raw| ==> raw[i] !in {34, 44, 10, 13}
  {
    if !IsPlain(raw) {
      QuotesLengthen(raw);
    }
  }

  lemma {:induction false} QuotesLengthen(raw: Text)
    ensures |DoubleQuotes(raw)| >= |raw|
    decreases |raw|
  {
    if raw != [] {
      QuotesLengthen(raw[1..]);
    }
  }

  lemma PrintedRowCons(fields: seq<Text>)
    requires |fields| > 1
    ensures PrintedRow(fields) == CsvField(fields[0]) + [COMMA] + PrintedRow(fields[1..])
  {
    assert PrintedFields(fields)[1..] == PrintedFields(fields[1..]);
  }

  lemma {:induction false} RecordReadsBack(fields: seq<Text>, rest: Text)
    requires fields != []
    ensures ReadRecord(PrintedRow(fields) + [CR, LF] + rest) == Some((fields, rest))
    decreases |fields|
  {
    var ending := [CR, LF] + rest;
    var t := PrintedRow(fields) + [CR, LF] + rest;
    if |fields| == 1 {
      assert t == CsvField(fields[0]) + ending;
      FieldReadsBack(fields[0], ending);
      assert ending[2..] == rest && fields == [fields[0]];
    } else {
      PrintedRowCons(fields);
      var tail := PrintedRow(fields[1..]) + [CR, LF] + rest;
      assert t == CsvField(fields[0]) + ([COMMA] + tail);
      FieldReadsBack(fields[0], [COMMA] + tail);
      assert ([COMMA] + tail)[1..] == tail;
      RecordReadsBack(fields[1..], rest);
      assert [fields[0]] + fields[1..] == fields;
    }
  }

  lemma {:induction false} FileReadsBack(rows: seq<seq<Text>>)
    requires forall i :: 0 <= i < |rows| ==> rows[i] != []
    ensures ReadFile(Terminated(PrintedRows(rows), [CR, LF])) == Some(rows)
  {
    if rows != [] {
      var rest := Terminated(PrintedRows(rows[1..]), [CR, LF]);
      assert PrintedRows(rows)[1..] == PrintedRows(rows[1..]);
      var t := PrintedRow(rows[0]) + [CR, LF] + rest;
      assert Terminated(PrintedRows(rows), [CR, LF]) == t;
      RecordReadsBack(rows[0], rest);
      FileReadsBack(rows[1..]);
      assert [rows[0]] + rows[1..] == rows;
    }
  }

  predicate AllLetters(s: string) {
    forall i :: 0 <= i < |s| ==> 'A' <= s[i] <= 'z'
  }

  lemma HeaderIsPlain(i: nat)
    requires i < |COLUMNS|
    ensures IsPlain(HeaderFields()[i])
  {
    assert AllLetters("hourEntryId") && AllLetters("personId") && AllLetters("opportunityId") && AllLetters("chapterId")
      && AllLetters("shiftId") && AllLetters("durationMinutes") && AllLetters("hours") && AllLetters("description")
      && AllLetters("approverPersonId") && AllLetters("approvedAt");
    assert AllLetters(COLUMNS[i]);
  }

  /** The header needs no quoting, so joining it raw is printing it as a row. */
  lemma HeaderIsARow()
    ensures Join(HeaderFields(), [COMMA]) == PrintedRow(HeaderFields())
  {
    forall i | 0 <= i < |HeaderFields()| ensures CsvField(HeaderFields()[i]) == HeaderFields()[i] {
      HeaderIsPlain(i);
    }
    assert PrintedFields(HeaderFields()) == HeaderFields();
  }

  /** The ten column names, in their order. */
  lemma HeaderNames()
    ensures HeaderFields() == [Ascii("hourEntryId"), Ascii("personId"), Ascii("opportunityId"), Ascii("chapterId"), Ascii("shiftId"),
                               Ascii("durationMinutes"), Ascii("hours"), Ascii("description"), Ascii("approverPersonId"), Ascii("approvedAt")]
  {
    hide Ascii;
  }

  /** An RFC 4180 reader gets back exactly the header and the field texts of every record. */
  lemma ExportReadsBack(records: seq<HourRecord>)
    ensures ReadFile(BuildApprovedHoursCsv(records)) == Some([HeaderFields()] + AllFields(records))
  {
    var rows := [HeaderFields()] + AllFields(records);
    HeaderIsARow();
    var lines := [PrintedRow(HeaderFields())] + PrintedRows(AllFields(records));
    assert lines == PrintedRows(rows);
    JoinTerminates(lines, [CR, LF]);
    FileReadsBack(rows);
  }

  /** The hours column is within half a hundredth of the minutes it stands for. */
  lemma HoursColumnIsClose(durationMinutes: nat)
    ensures -30 <= 60 * HourHundredths(durationMinutes) - 100 * durationMinutes <= 30
  {
  }

  // ---------- what each column says ----------

  /** The text a column's name promises. */
  function FieldNamed(r: HourRecord, name: string): Option<Text> {
    match name
    case "hourEntryId" => Some(r.hourEntryId)
    case "personId" => Some(r.personId)
    case "opportunityId" => Some(r.opportunityId)
    case "chapterId" => Some(if r.chapterId.Some? then r.chapterId.value else [])
    case "shiftId" => Some(if r.shiftId.Some? then r.shiftId.value else [])
    case "durationMinutes" => Some(Decimal(r.durationMinutes))
    case "hours" => Some(HundredthsText(HourHundredths(r.durationMinutes)))
    case "description" => Some(if r.description.Some? then r.description.value else [])
    case "approverPersonId" => Some(r.approverPersonId)
    case "approvedAt" => Some(r.approvedAt)
    case _ => None
  }

  /** Every record has under each header name the field of that name. */
  lemma ColumnsHoldTheirFields(r: HourRecord, i: nat)
    requires i < |COLUMNS|
    ensures FieldNamed(r, COLUMNS[i]) == Some(RecordFields(r)[i])
  {
  }

  /** A number with at most two decimals, in hundredths. */
  function ReadHundredths(t: Text): Option<nat> {
    match ReadNumber(t)
    case None => None
    case Some((whole, rest)) =>
      if rest == [] then Some(100 * whole)
      else if rest[0] != POINT || !AllDigits(rest[1..]) then None
      else if |rest| == 2 then Some(100 * whole + 10 * (rest[1] - 48))
      else if |rest| == 3 then Some(100 * whole + 10 * (rest[1] - 48) + rest[2] - 48)
      else None
  }

  /** The hours column is a decimal numeral of exactly the rounded hundredths. */
  lemma HundredthsReadBack(h: nat)
    ensures ReadHundredths(HundredthsText(h)) == Some(h)
  {
    hide Decimal;
    var rest := if h % 100 == 0 then []
                else if h % 10 == 0 then [POINT, 48 + h % 100 / 10]
                else [POINT, 48 + h % 100 / 10, 48 + h % 10];
    ReadsNumber(h / 100, rest);
    assert HundredthsText(h) == Decimal(h / 100) + rest;
    assert h == 100 * (h / 100) + h % 100 && h % 100 == 10 * (h % 100 / 10) + h % 10;
  }
}
