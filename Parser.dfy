/** The file parser of the data validation tool
    (javascript/static_structural/src/utils/parser.js) and the `Record`
    constructor it calls (javascript/static_structural/src/models/record.js).
    Parsed values are the `Json` values of the configuration model; what
    `JSON.parse` makes of the content is a parameter. */
module FileParser {
  import opened Wrappers
  import opened Text
  import opened ConfigMerge

  /** `new Record(data)`: the data and its id. The creation time and the
      error list, which starts empty, are not modelled. */
  datatype Record = Record(data: Json, id: Option<Json>)

  /** `{ success: true, data, recordCount }` or `{ success: false, errors }`. */
  datatype ParseResult = Success(data: seq<Record>, recordCount: nat) | Failure(errors: seq<string>)

  const UnsupportedFormat := "Unsupported format"
  const MissingRows := "CSV must have header and at least one row"

  /** The message of the `TypeError` thrown when the constructor reads
      `data.id` of `null`. */
  const NullData := "Cannot read properties of null (reading 'id')"

  /** `data.id || null` for an object. */
  function ObjectId(fields: seq<Field>): (id: Option<Json>)
    ensures id.Some? <==> Lookup(fields, "id").Some? && Truthy(Lookup(fields, "id").value)
    ensures id.Some? ==> id == Lookup(fields, "id")
  {
    var v := Lookup(fields, "id");
    if v.Some? && Truthy(v.value) then v else None
  }

  /** `new Record(data)`: throws for `null`; a value other than an object
      has no `id` property. */
  function NewRecord(data: Json): (r: Result<Record, string>)
    ensures r.Err? <==> data.Null?
    ensures r.Err? ==> r.error == NullData
    ensures r.Ok? ==> r.value.data == data
    ensures r.Ok? && !data.Obj? ==> r.value.id == None
    ensures r.Ok? && data.Obj? ==> r.value.id == ObjectId(data.fields)
  {
    match data
    case Null => Err(NullData)
    case Obj(fields) => Ok(Record(data, ObjectId(fields)))
    case _ => Ok(Record(data, None))
  }

  /** `items.map(item => new Record(item))`: the first `null` item throws. */
  function RecordsOf(items: seq<Json>): (r: Result<seq<Record>, string>)
    ensures r.Err? <==> Null in items
    ensures r.Err? ==> r.error == NullData
    ensures r.Ok? ==> |r.value| == |items| && forall i :: 0 <= i < |items| ==> Ok(r.value[i]) == NewRecord(items[i])
  {
    if items == [] then Ok([])
    else match NewRecord(items[0])
      case Err(e) => Err(e)
      case Ok(head) =>
        match RecordsOf(items[1..])
        case Err(e) =>
          assert Null in items by { var k :| 0 <= k < |items[1..]| && items[1..][k] == Null; assert items[k + 1] == Null; }
          Err(e)
        case Ok(rest) =>
          assert items == [items[0]] + items[1..];
          Ok([head] + rest)
  }

  /** `parseJson(content)` on what `JSON.parse(content)` gives: a thrown
      parse error or a constructor error becomes the failure `parse`
      reports; an array gives one record per item, any other value a single
      record. */
  function ParseJson(parsed: Result<Json, string>): (r: ParseResult)
    ensures parsed.Err? ==> r == Failure([parsed.error])
    ensures parsed.Ok? && parsed.value.Arr? ==>
      (r.Failure? <==> Null in parsed.value.items)
      && (r.Success? ==>
            |r.data| == |parsed.value.items| && forall i :: 0 <= i < |r.data| ==> r.data[i].data == parsed.value.items[i])
    ensures parsed.Ok? && !parsed.value.Arr? ==>
      (r.Failure? <==> parsed.value.Null?)
      && (r.Success? ==> |r.data| == 1 && r.data[0].data == parsed.value)
    ensures r.Success? ==> r.recordCount == |r.data|
    ensures r.Failure? ==> (parsed.Err? && r.errors == [parsed.error]) || r.errors == [NullData]
  {
    match parsed
    case Err(e) => Failure([e])
    case Ok(Arr(items)) =>
      (match RecordsOf(items)
       case Err(e) => Failure([e])
       case Ok(records) => Success(records, |records|))
    case Ok(data) =>
      match NewRecord(data)
      case Err(e) => Failure([e])
      case Ok(record) => Success([record], 1)
  }

  // ----- CSV -----

  /** `content.trim().split('\n')`. */
  function Lines(content: string): (lines: seq<string>)
    ensures |lines| >= 1
  {
    Split(Trim(content, IsJsSpace), '\n')
  }

  /** `line.split(',').map(v => v.trim())`. */
  function Cells(line: string): (cells: seq<string>)
    ensures |cells| == |Split(line, ',')|
    ensures forall k :: 0 <= k < |cells| ==> cells[k] == Trim(Split(line, ',')[k], IsJsSpace)
  {
    var parts := Split(line, ',');
    seq(|parts|, k requires 0 <= k < |parts| => Trim(parts[k], IsJsSpace))
  }

  /** `values[idx] || ''`: a missing cell reads as the empty string. */
  function CellAt(values: seq<string>, idx: nat): string {
    if idx < |values| then values[idx] else ""
  }

  /** The object `headers.forEach` builds: each header in turn is assigned
      its cell, so a repeated header keeps the value of its last column. */
  function RowObject(headers: seq<string>, values: seq<string>): seq<Field> {
    if headers == [] then []
    else
      var n := |headers| - 1;
      Assign(RowObject(headers[..n], values), headers[n], Str(CellAt(values, n)))
  }

  /** The record of one data line. */
  function CsvRecord(headers: seq<string>, line: string): Record {
    var fields := RowObject(headers, Cells(line));
    Record(Obj(fields), ObjectId(fields))
  }

  /** The records of the data lines `rows`, in order. */
  function CsvRows(headers: seq<string>, rows: seq<string>): (records: seq<Record>)
    ensures |records| == |rows|
    ensures forall k :: 0 <= k < |rows| ==> records[k] == CsvRecord(headers, rows[k])
  {
    if rows == [] then []
    else CsvRows(headers, rows[..|rows| - 1]) + [CsvRecord(headers, rows[|rows| - 1])]
  }

  lemma CsvRowsStep(headers: seq<string>, lines: seq<string>, i: nat)
    requires 1 <= i < |lines|
    ensures CsvRows(headers, lines[1..i + 1]) == CsvRows(headers, lines[1..i]) + [CsvRecord(headers, lines[i])]
  {
    var rows := lines[1..i + 1];
    assert rows[..|rows| - 1] == lines[1..i];
    assert rows[|rows| - 1] == lines[i];
    assert CsvRows(headers, rows) == CsvRows(headers, rows[..|rows| - 1]) + [CsvRecord(headers, rows[|rows| - 1])];
  }

  /** `parseCsv(content)` as a function of the content. */
  function CsvSpec(content: string): ParseResult {
    var lines := Lines(content);
    if |lines| < 2 then Failure([MissingRows])
    else Success(CsvRows(Cells(lines[0]), lines[1..]), |lines| - 1)
  }

  /** `parseCsv(content)`: one record per line after the header line,
      pushed in order. */
  method ParseCsv(content: string) returns (r: ParseResult)
    ensures r == CsvSpec(content)
  {
    var lines := Lines(content);
    if |lines| < 2 {
      return Failure([MissingRows]);
    }
    var headers := Cells(lines[0]);
    var records: seq<Record> := [];
    var i := 1;
    while i < |lines|
      invariant 1 <= i <= |lines|
      invariant records == CsvRows(headers, lines[1..i])
    {
      CsvRowsStep(headers, lines, i);
      records := records + [CsvRecord(headers, lines[i])];
      i := i + 1;
    }
    assert lines[1..i] == lines[1..];
    return Success(records, |records|);
  }

  /** Every key of the row object is a header, and every header is a key. */
  lemma {:induction false} RowObjectKeys(headers: seq<string>, values: seq<string>)
    ensures Keys(RowObject(headers, values)) == set h | h in headers
  {
    if headers != [] {
      var n := |headers| - 1;
      RowObjectKeys(headers[..n], values);
      assert headers == headers[..n] + [headers[n]];
    }
  }

  /** A header with no later namesake maps to its own column's trimmed
      cell, or to the empty string when the line is too short. */
  lemma {:induction false} RowObjectValue(headers: seq<string>, values: seq<string>, idx: nat)
    requires idx < |headers| && headers[idx] !in headers[idx + 1..]
    ensures Lookup(RowObject(headers, values), headers[idx]) == Some(Str(CellAt(values, idx)))
  {
    var n := |headers| - 1;
    if idx < n {
      assert headers[n] in headers[idx + 1..];
      assert headers[..n][idx + 1..] == headers[idx + 1..n];
      RowObjectValue(headers[..n], values, idx);
    }
  }

  /** A CSV parse fails exactly when fewer than two lines remain after
      trimming; otherwise it counts one record per line after the header. */
  lemma CsvOutcome(content: string)
    ensures CsvSpec(content).Failure? <==> |Lines(content)| < 2
    ensures CsvSpec(content).Failure? ==> CsvSpec(content).errors == [MissingRows]
    ensures CsvSpec(content).Success? ==>
      && CsvSpec(content).recordCount == |Lines(content)| - 1
      && |CsvSpec(content).data| == CsvSpec(content).recordCount
  {
  }

  /** Each record is an object with exactly the header keys; under a header
      that is not repeated later it holds that column's trimmed cell, or
      `''` when the line has fewer cells than there are headers. */
  lemma CsvRecordShape(content: string, i: nat, idx: nat)
    requires CsvSpec(content).Success? && i < |CsvSpec(content).data|
    ensures var lines := Lines(content);
      var headers := Cells(lines[0]);
      var data := CsvSpec(content).data[i].data;
      && data.Obj?
      && Keys(data.fields) == set h | h in headers
      && (idx < |headers| && headers[idx] !in headers[idx + 1..] ==>
            Lookup(data.fields, headers[idx]) == Some(Str(CellAt(Cells(lines[i + 1]), idx))))
  {
    var lines := Lines(content);
    var headers := Cells(lines[0]);
    assert CsvSpec(content).data[i] == CsvRecord(headers, lines[i + 1]);
    RowObjectKeys(headers, Cells(lines[i + 1]));
    if idx < |headers| && headers[idx] !in headers[idx + 1..] {
      RowObjectValue(headers, Cells(lines[i + 1]), idx);
    }
  }

  /** No cell keeps surrounding whitespace or holds a comma. */
  lemma CellsAreTrimmed(line: string)
    ensures forall k :: 0 <= k < |Cells(line)| ==>
      var c := Cells(line)[k];
      ',' !in c && (c == [] || (!IsJsSpace(c[0]) && !IsJsSpace(c[|c| - 1])))
  {
    var parts := Split(line, ',');
    forall k | 0 <= k < |Cells(line)|
      ensures ',' !in Cells(line)[k]
    {
      var c := Cells(line)[k];
      var a := TrimIsInfix(parts[k], IsJsSpace);
      assert forall j :: 0 <= j < |c| ==> c[j] == parts[k][a + j];
    }
  }

  /** The trimmed string is a piece of the original, starting at `a`. */
  lemma TrimIsInfix(s: string, ws: char -> bool) returns (a: nat)
    ensures a + |Trim(s, ws)| <= |s| && s[a..a + |Trim(s, ws)|] == Trim(s, ws)
  {
    var t := TrimStart(s, ws);
    a := TrimStartIsSuffix(s, ws);
    if t != [] {
      TrimEndKeepsHead(t, ws);
      TrimEndIsPrefix(t, ws);
      var r := TrimEnd(t, ws);
      assert s[a..a + |r|] == t[..|r|];
    } else {
      a := 0;
    }
  }

  lemma {:induction false} TrimStartIsSuffix(s: string, ws: char -> bool) returns (a: nat)
    ensures a <= |s| && TrimStart(s, ws) == s[a..]
  {
    if s == [] || !ws(s[0]) {
      a := 0;
    } else {
      var b := TrimStartIsSuffix(s[1..], ws);
      a := b + 1;
      assert s[1..][b..] == s[a..];
    }
  }

  lemma {:induction false} TrimEndIsPrefix(s: string, ws: char -> bool)
    ensures TrimEnd(s, ws) == s[..|TrimEnd(s, ws)|]
  {
    if s != [] && ws(s[|s| - 1]) {
      TrimEndIsPrefix(s[..|s| - 1], ws);
    }
  }

  /** `parse(content, extension)`: dispatches on the extension; a thrown
      error becomes a failure carrying its message. */
  method Parse(content: string, extension: string, jsonParsed: Result<Json, string>) returns (r: ParseResult)
    ensures extension == ".json" ==> r == ParseJson(jsonParsed)
    ensures extension == ".csv" ==> r == CsvSpec(content)
    ensures extension != ".json" && extension != ".csv" ==> r == Failure([UnsupportedFormat])
    ensures r.Success? ==> r.recordCount == |r.data|
    ensures r.Failure? ==> |r.errors| == 1
  {
    if extension == ".json" {
      r := ParseJson(jsonParsed);
    } else if extension == ".csv" {
      r := ParseCsv(content);
      CsvOutcome(content);
    } else {
      r := Failure([UnsupportedFormat]);
    }
  }
}
