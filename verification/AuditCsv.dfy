/** The CSV export of the audit log, and a reader following section 2 (rules 5 to 7) of
    RFC 4180 with LF as the record break: what is printed can be read back. */
module AuditCsv {
  import opened Options
  import opened AuditModel

  // ---- printing ---------------------------------------------------------------

  predicate NeedsQuotes(v: string) {
    exists i :: 0 <= i < |v| && v[i] in {'"', ',', '\n', '\r'}
  }

  function Doubled(v: string): string {
    if v == "" then "" else (if v[0] == '"' then "\"\"" else [v[0]]) + Doubled(v[1..])
  }

  function CsvField(v: string): string {
    if NeedsQuotes(v) then "\"" + Doubled(v) + "\"" else v
  }

  function OrEmpty(v: Option<string>): string {
    if v.Some? then v.value else ""
  }

  /** The six fields of a row, absent ones empty. */
  function Fields(e: AuditEvent): seq<string> {
    [e.ts, e.actor, OrEmpty(e.machineId), e.action, e.result, OrEmpty(e.detail)]
  }

  function Line(fields: seq<string>): string {
    if fields == [] then "\n"
    else CsvField(fields[0]) + (if |fields| == 1 then "\n" else "," + Line(fields[1..]))
  }

  function AuditLineCsv(e: AuditEvent): string {
    Line(Fields(e))
  }

  const HEADER_FIELDS: seq<string> := ["ts", "actor", "machineId", "action", "result", "detail"]
  const HEADER_LINE := "ts,actor,machineId," + "action,result,detail\n"

  function Lines(rows: seq<AuditEvent>): string {
    if rows == [] then "" else AuditLineCsv(rows[0]) + Lines(rows[1..])
  }

  function ExportText(rows: seq<AuditEvent>): string {
    HEADER_LINE + Lines(rows)
  }

  function Records(rows: seq<AuditEvent>): seq<seq<string>> {
    if rows == [] then [] else [Fields(rows[0])] + Records(rows[1..])
  }

  // ---- reading ----------------------------------------------------------------

  /** Where a reader stands: before a field, in a bare one, in a quoted one, after a quote that
      may close it. */
  datatype Stand = Before | Bare | Quoted | Closing

  /** Reads records; a bare field holds no quote and no CR, and after a closing quote only a comma,
      a record break or a second quote may come. None for anything else. */
  function Read(text: string, at: Stand, field: string, record: seq<string>, records: seq<seq<string>>)
    : Option<seq<seq<string>>>
    decreases text
  {
    if text == "" then
      if at.Quoted? then None
      else if at.Before? && record == [] then Some(records)
      else Some(records + [record + [field]])
    else
      var c, more := text[0], text[1..];
      if at.Quoted? then
        if c == '"' then Read(more, Closing, field, record, records)
        else Read(more, Quoted, field + [c], record, records)
      else if c == ',' then Read(more, Before, "", record + [field], records)
      else if c == '\n' then Read(more, Before, "", [], records + [record + [field]])
      else if c == '"' then
        if at.Before? then Read(more, Quoted, "", record, records)
        else if at.Closing? then Read(more, Quoted, field + ['"'], record, records)
        else None
      else if c == '\r' || at.Closing? then None
      else Read(more, Bare, field + [c], record, records)
  }

  function ReadCsv(text: string): Option<seq<seq<string>>> {
    Read(text, Before, "", [], [])
  }

  // ---- one field --------------------------------------------------------------

  predicate Breaks(c: char) { c == ',' || c == '\n' }

  /** A quoted field: everything up to the closing quote is taken in, doubled quotes halved. */
  lemma {:induction false} ReadsDoubled(
    v: string, more: string, field: string, record: seq<string>, records: seq<seq<string>>)
    ensures Read(Doubled(v) + "\"" + more, Quoted, field, record, records)
         == Read(more, Closing, field + v, record, records)
  {
    if v == "" {
      assert Doubled(v) + "\"" + more == "\"" + more && field + v == field;
    } else {
      var rest := Doubled(v[1..]) + "\"" + more;
      ReadsDoubled(v[1..], more, field + [v[0]], record, records);
      assert field + [v[0]] + v[1..] == field + v;
      if v[0] == '"' {
        assert Doubled(v) + "\"" + more == "\"" + ("\"" + rest);
        assert ("\"" + ("\"" + rest))[1..] == "\"" + rest && ("\"" + rest)[1..] == rest;
      } else {
        assert Doubled(v) + "\"" + more == [v[0]] + rest;
      }
    }
  }

  /** A bare field is taken in as it stands. */
  lemma {:induction false} ReadsBare(
    v: string, more: string, at: Stand, field: string, record: seq<string>, records: seq<seq<string>>)
    requires at.Bare? || (at.Before? && v != "")
    requires !NeedsQuotes(v)
    ensures Read(v + more, at, field, record, records) == Read(more, Bare, field + v, record, records)
    decreases v
  {
    if v == "" {
      assert v + more == more && field + v == field;
    } else {
      assert v[0] !in {'"', ',', '\n', '\r'};
      forall i | 0 <= i < |v[1..]| ensures v[1..][i] !in {'"', ',', '\n', '\r'} { assert v[1..][i] == v[i + 1]; }
      ReadsBare(v[1..], more, Bare, field + [v[0]], record, records);
      assert (v + more)[1..] == v[1..] + more && field + [v[0]] + v[1..] == field + v;
    }
  }

  /** A printed field followed by its break reads as that field, and the reader stands before the next. */
  lemma ReadsField(v: string, b: char, more: string, record: seq<string>, records: seq<seq<string>>)
    requires Breaks(b)
    ensures Read(CsvField(v) + [b] + more, Before, "", record, records)
         == if b == ',' then Read(more, Before, "", record + [v], records)
            else Read(more, Before, "", [], records + [record + [v]])
  {
    var rest := [b] + more;
    assert rest[1..] == more && "" + v == v;
    if NeedsQuotes(v) {
      assert CsvField(v) + [b] + more == "\"" + (Doubled(v) + "\"" + rest);
      assert ("\"" + (Doubled(v) + "\"" + rest))[1..] == Doubled(v) + "\"" + rest;
      ReadsDoubled(v, rest, "", record, records);
    } else {
      assert CsvField(v) + [b] + more == v + rest;
      if v != "" {
        ReadsBare(v, rest, Before, "", record, records);
      } else {
        assert v + rest == rest;
      }
    }
  }

  // ---- whole texts ------------------------------------------------------------

  lemma {:induction false} ReadsLine(
    fields: seq<string>, more: string, record: seq<string>, records: seq<seq<string>>)
    requires fields != []
    ensures Read(Line(fields) + more, Before, "", record, records)
         == Read(more, Before, "", [], records + [record + fields])
    decreases fields
  {
    var v, rest := fields[0], fields[1..];
    if |fields| == 1 {
      ReadsField(v, '\n', more, record, records);
      LineEnds(fields, more);
      assert fields == [v];
    } else {
      ReadsField(v, ',', Line(rest) + more, record, records);
      LineSplits(fields, more);
      ReadsLine(rest, more, record + [v], records);
      Whole(record, fields);
    }
  }

  lemma LineEnds(fields: seq<string>, more: string)
    requires |fields| == 1
    ensures Line(fields) + more == CsvField(fields[0]) + ['\n'] + more
  {
  }

  lemma Whole(record: seq<string>, fields: seq<string>)
    requires fields != []
    ensures record + [fields[0]] + fields[1..] == record + fields
  {
    assert [fields[0]] + fields[1..] == fields;
  }

  lemma LineSplits(fields: seq<string>, more: string)
    requires |fields| > 1
    ensures Line(fields) + more == CsvField(fields[0]) + [','] + (Line(fields[1..]) + more)
  {
    Regrouped(CsvField(fields[0]), ",", Line(fields[1..]), more);
  }

  lemma Regrouped(a: string, b: string, c: string, d: string)
    ensures a + (b + c) + d == a + b + (c + d)
  {
  }

  lemma {:induction false} ReadsLines(rows: seq<AuditEvent>, records: seq<seq<string>>)
    ensures Read(Lines(rows), Before, "", [], records) == Some(records + Records(rows))
  {
    if rows == [] {
      assert records + [] == records;
    } else {
      ReadsLine(Fields(rows[0]), Lines(rows[1..]), [], records);
      ReadsLines(rows[1..], records + [Fields(rows[0])]);
      assert [] + Fields(rows[0]) == Fields(rows[0]);
      assert records + [Fields(rows[0])] + Records(rows[1..]) == records + Records(rows);
    }
  }

  predicate Plain(v: string) {
    forall i :: 0 <= i < |v| ==> v[i] !in {'"', ',', '\n', '\r'}
  }

  lemma PlainLine(v: string, others: seq<string>)
    requires Plain(v) && others != []
    ensures Line([v] + others) == v + "," + Line(others)
  {
  }

  lemma PlainNames()
    ensures Plain("ts") && Plain("actor") && Plain("machineId") && Plain("action") && Plain("result") && Plain("detail")
  {
  }

  lemma PlainSix(a: string, b: string, c: string, d: string, e: string, f: string)
    requires Plain(a) && Plain(b) && Plain(c) && Plain(d) && Plain(e) && Plain(f)
    ensures Line([a, b, c, d, e, f]) == a + "," + (b + "," + (c + "," + (d + "," + (e + "," + (f + "\n")))))
  {
    PlainLine(e, [f]);
    PlainLine(d, [e] + [f]);
    PlainLine(c, [d] + ([e] + [f]));
    PlainLine(b, [c] + ([d] + ([e] + [f])));
    PlainLine(a, [b] + ([c] + ([d] + ([e] + [f]))));
    assert [a, b, c, d, e, f] == [a] + ([b] + ([c] + ([d] + ([e] + [f]))));
  }

  /** The header is printed as any line of those six names would be. */
  lemma HeaderIsALine()
    ensures HEADER_LINE == Line(HEADER_FIELDS)
  {
    PlainNames();
    PlainSix("ts", "actor", "machineId", "action", "result", "detail");
    HeaderText();
  }

  lemma HeaderText()
    ensures HEADER_LINE == "ts" + "," + ("actor" + "," + ("machineId" + "," + ("action" + "," + ("result" + "," + ("detail" + "\n")))))
  {
    var tail := "action" + "," + ("result" + "," + ("detail" + "\n"));
    assert tail == "action,result,detail\n";
    assert "ts" + "," + ("actor" + "," + ("machineId" + "," + tail)) == "ts,actor,machineId," + tail;
  }

  /** What stands in a row under a column's name; nothing for an attribute it lacks. */
  function Attribute(e: AuditEvent, name: string): string {
    if name == "ts" then e.ts
    else if name == "actor" then e.actor
    else if name == "action" then e.action
    else if name == "result" then e.result
    else
      var absent := if name == "machineId" then e.machineId else e.detail;
      if absent.Some? then absent.value else ""
  }

  /** Every record has a field for every column of the header, holding the row's own attribute of that name. */
  ghost predicate Columns(records: seq<seq<string>>, rows: seq<AuditEvent>) {
    && |records| == |rows|
    && forall i :: 0 <= i < |rows| ==> Columned(records[i], rows[i])
  }

  predicate Columned(record: seq<string>, e: AuditEvent) {
    && |record| == |HEADER_FIELDS|
    && forall j :: 0 <= j < |HEADER_FIELDS| ==> record[j] == Attribute(e, HEADER_FIELDS[j])
  }

  lemma FieldsAreColumned(e: AuditEvent)
    ensures Columned(Fields(e), e)
  {
    var names := HEADER_FIELDS;
    assert names[0] == "ts" && names[1] == "actor" && names[2] == "machineId";
    assert names[3] == "action" && names[4] == "result" && names[5] == "detail";
    assert Attribute(e, "machineId") == OrEmpty(e.machineId) && Attribute(e, "detail") == OrEmpty(e.detail);
  }

  lemma {:induction false} RecordsAreColumned(rows: seq<AuditEvent>)
    ensures Columns(Records(rows), rows)
  {
    if rows != [] {
      FieldsAreColumned(rows[0]);
      RecordsAreColumned(rows[1..]);
    }
  }

  /** Printing is undone by reading, for all field strings, quotes, commas, CR and LF included: a reader
      finds the header, and under each of its names each row's own attribute. */
  lemma CsvReadsBack(rows: seq<AuditEvent>)
    ensures ReadCsv(ExportText(rows)) == Some([HEADER_FIELDS] + Records(rows))
    ensures Columns(Records(rows), rows)
  {
    RecordsAreColumned(rows);
    HeaderIsALine();
    ReadsLine(HEADER_FIELDS, Lines(rows), [], []);
    ReadsLines(rows, [HEADER_FIELDS]);
    assert [] + HEADER_FIELDS == HEADER_FIELDS && [] + [HEADER_FIELDS] == [HEADER_FIELDS];
  }

  lemma {:induction false} ExportPush(rows: seq<AuditEvent>, e: AuditEvent)
    ensures ExportText(rows + [e]) == ExportText(rows) + AuditLineCsv(e)
  {
    LinesPush(rows, e);
    assert HEADER_LINE + (Lines(rows) + AuditLineCsv(e)) == HEADER_LINE + Lines(rows) + AuditLineCsv(e);
  }

  lemma {:induction false} LinesPush(rows: seq<AuditEvent>, e: AuditEvent)
    ensures Lines(rows + [e]) == Lines(rows) + AuditLineCsv(e)
  {
    if rows == [] {
      assert [e][1..] == [];
      assert AuditLineCsv(e) + "" == AuditLineCsv(e);
    } else {
      assert (rows + [e])[1..] == rows[1..] + [e];
      LinesPush(rows[1..], e);
    }
  }

  lemma {:induction false} RecordsConcat(a: seq<AuditEvent>, b: seq<AuditEvent>)
    ensures Records(a + b) == Records(a) + Records(b)
  {
    if a == [] {
      assert a + b == b;
    } else {
      assert (a + b)[1..] == a[1..] + b;
      RecordsConcat(a[1..], b);
    }
  }
}
